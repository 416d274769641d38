/** `seed_database` and `clear_database`: the demo data (five patients and
    twelve notes) and the wipe, as state changes of the store with the
    session calls they make. */
module Seed {
  import opened Store

  const SecondsPerDay: int := 86400

  // ---------------------------------------------------------------------
  // The seed data

  datatype SeedPatient = SeedPatient(name: string, dateOfBirth: string)

  const SeedPatients: seq<SeedPatient> := [
    SeedPatient("John Doe", "1985-03-15"),
    SeedPatient("Jane Smith", "1990-07-22"),
    SeedPatient("Robert Johnson", "1978-11-30"),
    SeedPatient("Maria Garcia", "1995-05-18"),
    SeedPatient("Michael Brown", "1982-09-08")
  ]

  /** The seed note texts, by name. */
  datatype SeedText =
    | HypertensionConsult
    | HypertensionWeek2
    | HypertensionMonth1
    | DiabetesNewVisit
    | DiabetesWeek3
    | DiabetesLabReview
    | AnnualPhysical
    | AnnualLabReview
    | PrenatalInitial
    | PrenatalWeek12
    | PostOpDay7
    | PostOpWeek2

  /** A seed note: its text and its day offset from the base time. */
  datatype SeedNote = SeedNote(text: SeedText, dayOffset: int)

  function TextOf(t: SeedText): string {
    match t
    case HypertensionConsult =>
      "Initial Consultation: Patient presents with elevated blood pressure (145/95). "
      + "Reports occasional headaches and family history of hypertension. "
      + "No chest pain or shortness of breath. Started on Lisinopril 10mg daily."
    case HypertensionWeek2 =>
      "Follow-up (Week 2): Blood pressure improved to 135/88. "
      + "Patient tolerating medication well. Continue current dose."
    case HypertensionMonth1 =>
      "Follow-up (Month 1): Blood pressure now 128/82. Excellent response to treatment. "
      + "Patient reports no adverse effects. Recommend continue medication and follow up in 3 months."
    case DiabetesNewVisit =>
      "New Patient Visit: 32-year-old female with newly diagnosed Type 2 Diabetes. "
      + "HbA1c 8.2%. BMI 31. Started on Metformin 500mg BID. "
      + "Discussed lifestyle modifications and dietary changes."
    case DiabetesWeek3 =>
      "Follow-up (Week 3): Blood glucose levels improving. Fasting glucose down from 165 to 140. "
      + "Patient reports better energy levels. Increased Metformin to 1000mg BID."
    case DiabetesLabReview =>
      "Lab Review: HbA1c down to 7.1%. Continue current regimen. "
      + "Patient motivated and compliant with diet and exercise program."
    case AnnualPhysical =>
      "Annual Physical: 47-year-old male in good health. "
      + "Vital signs normal. No significant complaints. "
      + "Labs ordered: CBC, CMP, lipid panel. Recommended colonoscopy screening."
    case AnnualLabReview =>
      "Lab Results Review: All labs within normal limits. Cholesterol slightly elevated (220). "
      + "Discussed dietary modifications. No medication needed at this time."
    case PrenatalInitial =>
      "Initial Prenatal Visit: 28-year-old G1P0 at 8 weeks gestation. "
      + "Prenatal labs ordered. Started on prenatal vitamins. "
      + "Next visit scheduled for 12 weeks with ultrasound."
    case PrenatalWeek12 =>
      "12-Week Checkup: Ultrasound shows single viable intrauterine pregnancy. "
      + "EDD confirmed. Nuchal translucency normal. Patient feeling well, minimal nausea."
    case PostOpDay7 =>
      "Post-Op Day 7: S/P appendectomy. Wound healing well, no signs of infection. "
      + "Pain controlled with ibuprofen. Cleared to return to light activities."
    case PostOpWeek2 =>
      "2-Week Follow-up: Excellent recovery. No complications. "
      + "Wound completely healed. Cleared for normal activities."
  }

  /** The notes of each seed patient, group `i` for patient `i`, with
      their day offsets. */
  const SeedNoteGroups: seq<seq<SeedNote>> := [
    [SeedNote(HypertensionConsult, 0), SeedNote(HypertensionWeek2, 14), SeedNote(HypertensionMonth1, 30)],
    [SeedNote(DiabetesNewVisit, 1), SeedNote(DiabetesWeek3, 21), SeedNote(DiabetesLabReview, 28)],
    [SeedNote(AnnualPhysical, 2), SeedNote(AnnualLabReview, 9)],
    [SeedNote(PrenatalInitial, 5), SeedNote(PrenatalWeek12, 33)],
    [SeedNote(PostOpDay7, 7), SeedNote(PostOpWeek2, 14)]
  ]

  // ---------------------------------------------------------------------
  // Tables built row by row

  /** `m` with the first `n` of `rows` stored under their ids, in order. */
  function ExtendPatients(m: map<int, Patient>, rows: seq<Patient>, n: nat): map<int, Patient>
    requires n <= |rows|
  {
    if n == 0 then m else ExtendPatients(m, rows, n - 1)[rows[n - 1].id := rows[n - 1]]
  }

  function ExtendNotes(m: map<int, Note>, rows: seq<Note>, n: nat): map<int, Note>
    requires n <= |rows|
  {
    if n == 0 then m else ExtendNotes(m, rows, n - 1)[rows[n - 1].id := rows[n - 1]]
  }

  /** Rows under consecutive fresh ids from `bound` add exactly those
      keys, one each, and keep every old row. */
  lemma {:induction false} ExtendPatientsKeys(m: map<int, Patient>, rows: seq<Patient>, n: nat, bound: int)
    requires n <= |rows|
    requires forall k :: k in m ==> k < bound
    requires forall j :: 0 <= j < |rows| ==> rows[j].id == bound + j
    ensures forall k :: k in ExtendPatients(m, rows, n) <==> k in m || bound <= k < bound + n
    ensures |ExtendPatients(m, rows, n)| == |m| + n
  {
    if n > 0 {
      ExtendPatientsKeys(m, rows, n - 1, bound);
    }
  }

  lemma {:induction false} ExtendPatientsValues(m: map<int, Patient>, rows: seq<Patient>, n: nat, bound: int)
    requires n <= |rows|
    requires forall j :: 0 <= j < |rows| ==> rows[j].id == bound + j
    ensures forall j :: 0 <= j < n ==>
      rows[j].id in ExtendPatients(m, rows, n) && ExtendPatients(m, rows, n)[rows[j].id] == rows[j]
  {
    if n > 0 {
      ExtendPatientsValues(m, rows, n - 1, bound);
    }
  }

  lemma {:induction false} ExtendNotesKeys(m: map<int, Note>, rows: seq<Note>, n: nat, bound: int)
    requires n <= |rows|
    requires forall k :: k in m ==> k < bound
    requires forall j :: 0 <= j < |rows| ==> rows[j].id == bound + j
    ensures forall k :: k in ExtendNotes(m, rows, n) <==> k in m || bound <= k < bound + n
    ensures |ExtendNotes(m, rows, n)| == |m| + n
  {
    if n > 0 {
      ExtendNotesKeys(m, rows, n - 1, bound);
    }
  }

  lemma {:induction false} ExtendNotesValues(m: map<int, Note>, rows: seq<Note>, n: nat, bound: int)
    requires n <= |rows|
    requires forall j :: 0 <= j < |rows| ==> rows[j].id == bound + j
    ensures forall j :: 0 <= j < n ==>
      rows[j].id in ExtendNotes(m, rows, n) && ExtendNotes(m, rows, n)[rows[j].id] == rows[j]
  {
    if n > 0 {
      ExtendNotesValues(m, rows, n - 1, bound);
    }
  }

  /** How many of the first `n` rows belong to patient `patientId`. */
  function CountOwned(rows: seq<Note>, n: nat, patientId: int): nat
    requires n <= |rows|
  {
    if n == 0 then 0 else CountOwned(rows, n - 1, patientId) + (if rows[n - 1].patientId == patientId then 1 else 0)
  }

  /** Storing rows under fresh consecutive ids gives a patient exactly as
      many more notes as the rows it owns. */
  lemma {:induction false} ExtendOwnedCount(m: map<int, Note>, rows: seq<Note>, n: nat, bound: int, patientId: int)
    requires n <= |rows|
    requires forall k :: k in m ==> k < bound
    requires forall j :: 0 <= j < |rows| ==> rows[j].id == bound + j
    ensures |NoteIdsOf(ExtendNotes(m, rows, n), patientId)| == |NoteIdsOf(m, patientId)| + CountOwned(rows, n, patientId)
  {
    if n > 0 {
      ExtendOwnedCount(m, rows, n - 1, bound, patientId);
      ExtendNotesKeys(m, rows, n - 1, bound);
      NoteIdsOfInsert(ExtendNotes(m, rows, n - 1), rows[n - 1], patientId);
    }
  }

  /** A new note adds its id to its owner's notes and to no one else's. */
  lemma NoteIdsOfInsert(before: map<int, Note>, x: Note, patientId: int)
    requires x.id !in before
    ensures |NoteIdsOf(before[x.id := x], patientId)| == |NoteIdsOf(before, patientId)| + (if x.patientId == patientId then 1 else 0)
  {
    var extra: set<int> := if x.patientId == patientId then {x.id} else {};
    assert NoteIdsOf(before[x.id := x], patientId) == NoteIdsOf(before, patientId) + extra;
    assert NoteIdsOf(before, patientId) !! extra;
  }

  // ---------------------------------------------------------------------
  // The rows the seed produces

  /** The seed patients under ids `first`, `first + 1`, ..., both
      timestamps set to the database's clock. */
  function SeedPatientList(first: int, now: int): seq<Patient> {
    seq(|SeedPatients|, i requires 0 <= i < |SeedPatients| =>
      Patient(first + i, SeedPatients[i].name, SeedPatients[i].dateOfBirth, now, now))
  }

  /** One seed note as a row. */
  function SeedNoteRow(id: int, patientId: int, n: SeedNote, textOf: SeedText -> string, baseTime: int, createdAt: int): Note {
    Note(id, patientId, textOf(n.text), baseTime + n.dayOffset * SecondsPerDay, createdAt)
  }

  /** One group's notes under consecutive ids from `first`. */
  function GroupNotes(first: int, patientId: int, group: seq<SeedNote>, textOf: SeedText -> string, baseTime: int, createdAt: int): seq<Note> {
    seq(|group|, j requires 0 <= j < |group| => SeedNoteRow(first + j, patientId, group[j], textOf, baseTime, createdAt))
  }

  /** The number of notes in the groups before group `g`. */
  function Offset(gs: seq<seq<SeedNote>>, g: nat): nat
    requires g <= |gs|
  {
    if g == 0 then 0 else Offset(gs, g - 1) + |gs[g - 1]|
  }

  /** The notes of the groups before group `g` in insertion order, under
      consecutive ids from `firstNote`, group `h` belonging to patient
      `firstPatient + h`. */
  function AllNotes(gs: seq<seq<SeedNote>>, g: nat, firstNote: int, firstPatient: int, textOf: SeedText -> string, baseTime: int, createdAt: int)
    : (r: seq<Note>)
    requires g <= |gs|
    ensures |r| == Offset(gs, g)
  {
    if g == 0 then []
    else AllNotes(gs, g - 1, firstNote, firstPatient, textOf, baseTime, createdAt)
         + GroupNotes(firstNote + Offset(gs, g - 1), firstPatient + g - 1, gs[g - 1], textOf, baseTime, createdAt)
  }

  lemma {:induction false} OffsetMonotone(gs: seq<seq<SeedNote>>, a: nat, b: nat)
    requires a <= b <= |gs|
    ensures Offset(gs, a) <= Offset(gs, b)
    decreases b
  {
    if a < b {
      OffsetMonotone(gs, a, b - 1);
    }
  }

  /** Note `j` of group `h` sits at position `Offset(gs, h) + j`, under id
      `firstNote` plus that position. */
  lemma {:induction false} AllNotesAt(gs: seq<seq<SeedNote>>, g: nat, h: nat, firstNote: int, firstPatient: int,
                                      textOf: SeedText -> string, baseTime: int, createdAt: int)
    requires h < g <= |gs|
    ensures forall j :: 0 <= j < |gs[h]| ==>
      Offset(gs, h) + j < Offset(gs, g)
      && AllNotes(gs, g, firstNote, firstPatient, textOf, baseTime, createdAt)[Offset(gs, h) + j]
         == SeedNoteRow(firstNote + Offset(gs, h) + j, firstPatient + h, gs[h][j], textOf, baseTime, createdAt)
  {
    var a := AllNotes(gs, g - 1, firstNote, firstPatient, textOf, baseTime, createdAt);
    var b := GroupNotes(firstNote + Offset(gs, g - 1), firstPatient + g - 1, gs[g - 1], textOf, baseTime, createdAt);
    assert AllNotes(gs, g, firstNote, firstPatient, textOf, baseTime, createdAt) == a + b;
    if h < g - 1 {
      AllNotesAt(gs, g - 1, h, firstNote, firstPatient, textOf, baseTime, createdAt);
      OffsetMonotone(gs, h + 1, g - 1);
    } else {
      forall j | 0 <= j < |gs[h]|
        ensures (a + b)[Offset(gs, h) + j] == SeedNoteRow(firstNote + Offset(gs, h) + j, firstPatient + h, gs[h][j], textOf, baseTime, createdAt)
      {
        assert b[j] == SeedNoteRow(firstNote + Offset(gs, h) + j, firstPatient + h, gs[h][j], textOf, baseTime, createdAt);
      }
    }
  }

  /** The seed's notes get consecutive ids, and each belongs to one of
      the groups' patients. */
  lemma {:induction false} AllNotesShape(gs: seq<seq<SeedNote>>, g: nat, firstNote: int, firstPatient: int, textOf: SeedText -> string, baseTime: int, createdAt: int)
    requires g <= |gs|
    ensures forall k :: 0 <= k < Offset(gs, g) ==>
      AllNotes(gs, g, firstNote, firstPatient, textOf, baseTime, createdAt)[k].id == firstNote + k
      && firstPatient <= AllNotes(gs, g, firstNote, firstPatient, textOf, baseTime, createdAt)[k].patientId < firstPatient + g
  {
    if g > 0 {
      var a := AllNotes(gs, g - 1, firstNote, firstPatient, textOf, baseTime, createdAt);
      var b := GroupNotes(firstNote + Offset(gs, g - 1), firstPatient + g - 1, gs[g - 1], textOf, baseTime, createdAt);
      var r: seq<Note> := a + b;
      AllNotesShape(gs, g - 1, firstNote, firstPatient, textOf, baseTime, createdAt);
      assert AllNotes(gs, g, firstNote, firstPatient, textOf, baseTime, createdAt) == r;
      forall k | 0 <= k < |r|
        ensures r[k].id == firstNote + k && firstPatient <= r[k].patientId < firstPatient + g
      {
        if k < |a| {
          assert r[k] == a[k];
          assert a[k].id == firstNote + k;
          assert firstPatient <= a[k].patientId < firstPatient + g - 1;
        } else {
          assert |a| == Offset(gs, g - 1);
          assert r[k] == b[k - |a|];
          assert b[k - |a|].id == firstNote + Offset(gs, g - 1) + (k - |a|);
          assert b[k - |a|].patientId == firstPatient + g - 1;
        }
      }
    }
  }

  lemma {:induction false} CountOwnedPrefix(a: seq<Note>, b: seq<Note>, n: nat, patientId: int)
    requires n <= |a|
    ensures CountOwned(a + b, n, patientId) == CountOwned(a, n, patientId)
  {
    if n > 0 {
      CountOwnedPrefix(a, b, n - 1, patientId);
    }
  }

  lemma {:induction false} CountOwnedAppend(a: seq<Note>, b: seq<Note>, n: nat, patientId: int)
    requires n <= |b|
    ensures CountOwned(a + b, |a| + n, patientId) == CountOwned(a, |a|, patientId) + CountOwned(b, n, patientId)
  {
    if n == 0 {
      CountOwnedPrefix(a, b, |a|, patientId);
    } else {
      CountOwnedAppend(a, b, n - 1, patientId);
    }
  }

  lemma {:induction false} GroupNotesOwned(first: int, patientId: int, group: seq<SeedNote>, textOf: SeedText -> string, baseTime: int, createdAt: int,
                                           n: nat, owner: int)
    requires n <= |group|
    ensures CountOwned(GroupNotes(first, patientId, group, textOf, baseTime, createdAt), n, owner) == if patientId == owner then n else 0
  {
    if n > 0 {
      GroupNotesOwned(first, patientId, group, textOf, baseTime, createdAt, n - 1, owner);
    }
  }

  /** Patient `firstPatient + i` owns exactly the notes of group `i`. */
  lemma {:induction false} AllNotesOwned(gs: seq<seq<SeedNote>>, g: nat, firstNote: int, firstPatient: int,
                                         textOf: SeedText -> string, baseTime: int, createdAt: int, i: nat)
    requires g <= |gs|
    ensures var r := AllNotes(gs, g, firstNote, firstPatient, textOf, baseTime, createdAt);
      CountOwned(r, |r|, firstPatient + i) == if i < g then |gs[i]| else 0
  {
    if g > 0 {
      var r0 := AllNotes(gs, g - 1, firstNote, firstPatient, textOf, baseTime, createdAt);
      var last := GroupNotes(firstNote + Offset(gs, g - 1), firstPatient + g - 1, gs[g - 1], textOf, baseTime, createdAt);
      AllNotesOwned(gs, g - 1, firstNote, firstPatient, textOf, baseTime, createdAt, i);
      CountOwnedAppend(r0, last, |last|, firstPatient + i);
      GroupNotesOwned(firstNote + Offset(gs, g - 1), firstPatient + g - 1, gs[g - 1], textOf, baseTime, createdAt, |last|, firstPatient + i);
    }
  }

  // ---------------------------------------------------------------------
  // The session log

  /** The adds (or refreshes) of `n` rows with consecutive ids. */
  function AddedRange(t: Table, first: int, n: nat): seq<SessionOp>
    decreases n
  {
    if n == 0 then [] else AddedRange(t, first, n - 1) + [Added(t, first + n - 1)]
  }

  function RefreshedRange(t: Table, first: int, n: nat): seq<SessionOp>
    decreases n
  {
    if n == 0 then [] else RefreshedRange(t, first, n - 1) + [Refreshed(t, first + n - 1)]
  }

  /** One delete for each of the first `n` listed patients, in listing
      order. */
  function PatientDeletions(ps: seq<Patient>, n: nat): seq<SessionOp>
    requires n <= |ps|
  {
    if n == 0 then [] else PatientDeletions(ps, n - 1) + [Deleted(PatientsTable, ps[n - 1].id)]
  }

  /** One delete for each of the first `n` listed notes, in listing order. */
  function NoteDeletions(ns: seq<Note>, n: nat): seq<SessionOp>
    requires n <= |ns|
  {
    if n == 0 then [] else NoteDeletions(ns, n - 1) + [Deleted(NotesTable, ns[n - 1].id)]
  }

  lemma {:induction false} AddedRangeAt(t: Table, first: int, n: nat)
    ensures |AddedRange(t, first, n)| == n
    ensures forall i :: 0 <= i < n ==> AddedRange(t, first, n)[i] == Added(t, first + i)
    decreases n
  {
    if n > 0 {
      AddedRangeAt(t, first, n - 1);
    }
  }

  lemma {:induction false} RefreshedRangeAt(t: Table, first: int, n: nat)
    ensures |RefreshedRange(t, first, n)| == n
    ensures forall i :: 0 <= i < n ==> RefreshedRange(t, first, n)[i] == Refreshed(t, first + i)
    decreases n
  {
    if n > 0 {
      RefreshedRangeAt(t, first, n - 1);
    }
  }

  lemma {:induction false} PatientDeletionsAt(ps: seq<Patient>, n: nat)
    requires n <= |ps|
    ensures |PatientDeletions(ps, n)| == n
    ensures forall i :: 0 <= i < n ==> PatientDeletions(ps, n)[i] == Deleted(PatientsTable, ps[i].id)
  {
    if n > 0 {
      PatientDeletionsAt(ps, n - 1);
    }
  }

  lemma {:induction false} NoteDeletionsAt(ns: seq<Note>, n: nat)
    requires n <= |ns|
    ensures |NoteDeletions(ns, n)| == n
    ensures forall i :: 0 <= i < n ==> NoteDeletions(ns, n)[i] == Deleted(NotesTable, ns[i].id)
  {
    if n > 0 {
      NoteDeletionsAt(ns, n - 1);
    }
  }

  /** The forced wipe: a delete per existing patient, then one commit;
      nothing at all when there is no patient. */
  function WipeLog(ps: seq<Patient>): seq<SessionOp> {
    if ps == [] then [] else PatientDeletions(ps, |ps|) + [Committed]
  }

  const SeedNoteCount: nat := 12

  /** The seeding itself: five adds, a commit, five refreshes, the note
      adds and a final commit. */
  function SeedLog(firstPatient: int, firstNote: int): seq<SessionOp> {
    AddedRange(PatientsTable, firstPatient, |SeedPatients|) + [Committed]
    + RefreshedRange(PatientsTable, firstPatient, |SeedPatients|)
    + AddedRange(NotesTable, firstNote, SeedNoteCount) + [Committed]
  }

  /** `clear_database`: a delete per note, then a delete per patient, then
      one commit. */
  function ClearLog(ns: seq<Note>, ps: seq<Patient>): seq<SessionOp> {
    NoteDeletions(ns, |ns|) + PatientDeletions(ps, |ps|) + [Committed]
  }

  /** The kinds of session call, for counting them. */
  datatype OpKind = AddOp | DeleteOp | BulkDeleteOp | CommitOp | RefreshOp

  function KindOf(op: SessionOp): OpKind {
    match op
    case Added(_, _) => AddOp
    case Deleted(_, _) => DeleteOp
    case BulkDeleted(_, _) => BulkDeleteOp
    case Committed => CommitOp
    case Refreshed(_, _) => RefreshOp
  }

  /** How many calls of kind `k` the log holds. */
  function Count(log: seq<SessionOp>, k: OpKind): nat
    decreases |log|
  {
    if log == [] then 0 else Count(log[..|log| - 1], k) + (if KindOf(log[|log| - 1]) == k then 1 else 0)
  }

  lemma {:induction false} CountAppend(a: seq<SessionOp>, b: seq<SessionOp>, k: OpKind)
    ensures Count(a + b, k) == Count(a, k) + Count(b, k)
    decreases |b|
  {
    if b == [] {
      assert a + b == a;
    } else {
      var b0 := b[..|b| - 1];
      assert (a + b)[..|a + b| - 1] == a + b0;
      CountAppend(a, b0, k);
    }
  }

  /** A log whose calls are all of kind `kind` counts its length for that
      kind and nothing for the others. */
  lemma {:induction false} CountUniform(log: seq<SessionOp>, kind: OpKind, k: OpKind)
    requires forall i :: 0 <= i < |log| ==> KindOf(log[i]) == kind
    ensures Count(log, k) == if k == kind then |log| else 0
    decreases |log|
  {
    if log != [] {
      CountUniform(log[..|log| - 1], kind, k);
    }
  }

  /** Seeding commits twice, refreshes the five patients, adds five
      patients and twelve notes, and deletes nothing. */
  lemma SeedLogCounts(firstPatient: int, firstNote: int)
    ensures Count(SeedLog(firstPatient, firstNote), CommitOp) == 2
    ensures Count(SeedLog(firstPatient, firstNote), RefreshOp) == 5
    ensures Count(SeedLog(firstPatient, firstNote), AddOp) == 5 + SeedNoteCount
    ensures Count(SeedLog(firstPatient, firstNote), DeleteOp) == 0
  {
    var a := AddedRange(PatientsTable, firstPatient, 5);
    var r := RefreshedRange(PatientsTable, firstPatient, 5);
    var n := AddedRange(NotesTable, firstNote, SeedNoteCount);
    AddedRangeAt(PatientsTable, firstPatient, 5);
    RefreshedRangeAt(PatientsTable, firstPatient, 5);
    AddedRangeAt(NotesTable, firstNote, SeedNoteCount);
    forall k: OpKind
      ensures Count(SeedLog(firstPatient, firstNote), k)
        == (if k == AddOp then 5 + SeedNoteCount else 0) + (if k == CommitOp then 2 else 0)
           + (if k == RefreshOp then 5 else 0)
    {
      CountAppend(a, [Committed], k);
      CountAppend(a + [Committed], r, k);
      CountAppend(a + [Committed] + r, n, k);
      CountAppend(a + [Committed] + r + n, [Committed], k);
      CountUniform(a, AddOp, k);
      CountUniform(r, RefreshOp, k);
      CountUniform(n, AddOp, k);
      CountUniform([Committed], CommitOp, k);
    }
  }

  /** The wipe deletes each existing patient once and commits once, and
      adds nothing; with no patient it does nothing. */
  lemma WipeLogCounts(ps: seq<Patient>)
    ensures Count(WipeLog(ps), DeleteOp) == |ps|
    ensures Count(WipeLog(ps), CommitOp) == if ps == [] then 0 else 1
    ensures Count(WipeLog(ps), AddOp) == 0 && Count(WipeLog(ps), RefreshOp) == 0
  {
    if ps != [] {
      var d := PatientDeletions(ps, |ps|);
      PatientDeletionsAt(ps, |ps|);
      forall k: OpKind
        ensures Count(WipeLog(ps), k) == (if k == DeleteOp then |ps| else 0) + (if k == CommitOp then 1 else 0)
      {
        CountAppend(d, [Committed], k);
        CountUniform(d, DeleteOp, k);
        CountUniform([Committed], CommitOp, k);
      }
    }
  }

  /** Every delete of the wipe comes before every add of the seeding. */
  lemma WipeBeforeSeed(ps: seq<Patient>, firstPatient: int, firstNote: int)
    ensures var log := WipeLog(ps) + SeedLog(firstPatient, firstNote);
      forall i, j :: 0 <= i < |log| && 0 <= j < |log| && log[i].Deleted? && log[j].Added? ==> i < j
  {
    var w := WipeLog(ps);
    var s := SeedLog(firstPatient, firstNote);
    PatientDeletionsAt(ps, |ps|);
    AddedRangeAt(PatientsTable, firstPatient, 5);
    RefreshedRangeAt(PatientsTable, firstPatient, 5);
    AddedRangeAt(NotesTable, firstNote, SeedNoteCount);
    assert forall i :: 0 <= i < |w| ==> !w[i].Added?;
    assert forall j :: 0 <= j < |s| ==> !s[j].Deleted?;
  }

  /** Clearing deletes every listed note before any listed patient,
      deletes as many rows as were listed, and commits once. */
  lemma ClearLogFacts(ns: seq<Note>, ps: seq<Patient>)
    ensures |ClearLog(ns, ps)| == |ns| + |ps| + 1
    ensures forall i :: 0 <= i < |ns| ==> ClearLog(ns, ps)[i] == Deleted(NotesTable, ns[i].id)
    ensures forall i :: 0 <= i < |ps| ==> ClearLog(ns, ps)[|ns| + i] == Deleted(PatientsTable, ps[i].id)
    ensures ClearLog(ns, ps)[|ns| + |ps|] == Committed
    ensures Count(ClearLog(ns, ps), DeleteOp) == |ns| + |ps|
    ensures Count(ClearLog(ns, ps), CommitOp) == 1
    ensures Count(ClearLog(ns, ps), AddOp) == 0 && Count(ClearLog(ns, ps), BulkDeleteOp) == 0
  {
    var a := NoteDeletions(ns, |ns|);
    var b := PatientDeletions(ps, |ps|);
    NoteDeletionsAt(ns, |ns|);
    PatientDeletionsAt(ps, |ps|);
    forall k: OpKind
      ensures Count(ClearLog(ns, ps), k) == (if k == DeleteOp then |ns| + |ps| else 0) + (if k == CommitOp then 1 else 0)
    {
      CountAppend(a, b, k);
      CountAppend(a + b, [Committed], k);
      CountUniform(a, DeleteOp, k);
      CountUniform(b, DeleteOp, k);
      CountUniform([Committed], CommitOp, k);
    }
  }


  // ---------------------------------------------------------------------
  // Loading

  lemma AppendAssoc(a: seq<SessionOp>, b: seq<SessionOp>, c: seq<SessionOp>)
    ensures a + b + c == a + (b + c)
  {
  }

  /** The loop over the listed patients: each is deleted, its notes with
      it (the delete-orphan cascade). */
  method DeleteAllPatients(db: Database)
    requires db.Valid()
    modifies db
    ensures db.Valid()
    ensures db.patients == map[] && db.notes == map[]
    ensures db.nextPatientId == old(db.nextPatientId) && db.nextNoteId == old(db.nextNoteId)
    ensures var ps := Rows(old(db.patients), old(db.nextPatientId));
      db.log == old(db.log) + PatientDeletions(ps, |ps|)
  {
    var ps := Rows(db.patients, db.nextPatientId);
    PatientIdsListed(db);
    ghost var oldKeys := db.patients.Keys;
    ghost var log0 := db.log;
    var i := 0;
    while i < |ps|
      invariant 0 <= i <= |ps|
      invariant db.Valid()
      invariant db.nextPatientId == old(db.nextPatientId) && db.nextNoteId == old(db.nextNoteId)
      invariant db.patients.Keys <= oldKeys
      invariant forall j :: 0 <= j < i ==> ps[j].id !in db.patients
      invariant db.log == log0 + PatientDeletions(ps, i)
    {
      StillGone(db.patients, ps, i);
      AppendAssoc(log0, PatientDeletions(ps, i), [Deleted(PatientsTable, ps[i].id)]);
      db.DeletePatientRow(ps[i].id);
      i := i + 1;
    }
    NoneLeft(db.patients, ps, oldKeys);
    EmptyStore(db);
  }

  lemma StillGone(m: map<int, Patient>, ps: seq<Patient>, i: int)
    requires 0 <= i < |ps|
    requires forall j :: 0 <= j < i ==> ps[j].id !in m
    ensures forall j :: 0 <= j < i + 1 ==> ps[j].id !in m - {ps[i].id}
  {
  }

  /** Keys drawn from the listed ids, none of which is left, are none. */
  lemma NoneLeft(m: map<int, Patient>, ps: seq<Patient>, keys: set<int>)
    requires IdsOf(ps) == keys && m.Keys <= keys
    requires forall j :: 0 <= j < |ps| ==> ps[j].id !in m
    ensures m == map[]
  {
    assert m.Keys == {};
  }

  /** A valid database without patients has no notes either. */
  lemma EmptyStore(db: Database)
    requires db.Valid() && db.patients == map[]
    ensures db.notes == map[]
  {
    AllKeysBelow(db);
    RowsCount(db.notes, db.nextNoteId);
    assert |db.notes| == |db.notes.Keys|;
    if |db.notes| > 0 {
      assert false;
    }
  }

  /** The seed patients are added one by one, each under the next id. */
  method AddSeedPatients(db: Database, now: int)
    requires db.Valid()
    modifies db
    ensures db.Valid()
    ensures db.patients == ExtendPatients(old(db.patients), SeedPatientList(old(db.nextPatientId), now), |SeedPatients|)
    ensures db.notes == old(db.notes)
    ensures db.nextPatientId == old(db.nextPatientId) + |SeedPatients| && db.nextNoteId == old(db.nextNoteId)
    ensures db.log == old(db.log) + AddedRange(PatientsTable, old(db.nextPatientId), |SeedPatients|)
  {
    ghost var patients0 := db.patients;
    ghost var log0 := db.log;
    var first := db.nextPatientId;
    var list := SeedPatientList(first, now);
    var i := 0;
    while i < |SeedPatients|
      invariant 0 <= i <= |SeedPatients|
      invariant db.Valid()
      invariant db.patients == ExtendPatients(patients0, list, i)
      invariant db.notes == old(db.notes)
      invariant db.nextPatientId == first + i && db.nextNoteId == old(db.nextNoteId)
      invariant db.log == log0 + AddedRange(PatientsTable, first, i)
    {
      var p := Patient(db.nextPatientId, SeedPatients[i].name, SeedPatients[i].dateOfBirth, now, now);
      assert p == list[i];
      AppendAssoc(log0, AddedRange(PatientsTable, first, i), [Added(PatientsTable, p.id)]);
      db.AddPatient(p);
      i := i + 1;
    }
  }

  /** `session.refresh` for each of the `n` patients just added. */
  method RefreshPatients(db: Database, first: int, n: nat)
    requires db.Valid()
    modifies db
    ensures db.Valid()
    ensures db.patients == old(db.patients) && db.notes == old(db.notes)
    ensures db.nextPatientId == old(db.nextPatientId) && db.nextNoteId == old(db.nextNoteId)
    ensures db.log == old(db.log) + RefreshedRange(PatientsTable, first, n)
  {
    ghost var log0 := db.log;
    var i := 0;
    while i < n
      invariant 0 <= i <= n
      invariant db.Valid()
      invariant db.patients == old(db.patients) && db.notes == old(db.notes)
      invariant db.nextPatientId == old(db.nextPatientId) && db.nextNoteId == old(db.nextNoteId)
      invariant db.log == log0 + RefreshedRange(PatientsTable, first, i)
    {
      AppendAssoc(log0, RefreshedRange(PatientsTable, first, i), [Refreshed(PatientsTable, first + i)]);
      db.Record(Refreshed(PatientsTable, first + i));
      i := i + 1;
    }
  }

  /** The note groups, group `g` going to the patient with id
      `firstPatient + g`, one note at a time under the next ids. A falsy
      (zero) patient id skips its group; the ids the store hands out start
      at one, so every group is added. Returns how many notes were added. */
  method AddSeedNotes(db: Database, gs: seq<seq<SeedNote>>, firstPatient: int, textOf: SeedText -> string, baseTime: int, createdAt: int)
    returns (total: nat)
    requires db.Valid() && firstPatient >= 1
    requires forall k :: firstPatient <= k < firstPatient + |gs| ==> k in db.patients
    modifies db
    ensures db.Valid()
    ensures total == Offset(gs, |gs|)
    ensures db.notes == ExtendNotes(old(db.notes), AllNotes(gs, |gs|, old(db.nextNoteId), firstPatient, textOf, baseTime, createdAt), total)
    ensures db.patients == old(db.patients) && db.nextPatientId == old(db.nextPatientId)
    ensures db.nextNoteId == old(db.nextNoteId) + total
    ensures db.log == old(db.log) + AddedRange(NotesTable, old(db.nextNoteId), total)
  {
    ghost var notes0 := db.notes;
    ghost var log0 := db.log;
    var first := db.nextNoteId;
    ghost var rows := AllNotes(gs, |gs|, first, firstPatient, textOf, baseTime, createdAt);
    total := 0;
    var g := 0;
    while g < |gs|
      invariant 0 <= g <= |gs|
      invariant db.Valid()
      invariant db.patients == old(db.patients) && db.nextPatientId == old(db.nextPatientId)
      invariant total == Offset(gs, g) <= |rows|
      invariant db.nextNoteId == first + total
      invariant db.notes == ExtendNotes(notes0, rows, total)
      invariant db.log == log0 + AddedRange(NotesTable, first, total)
    {
      var patientId := firstPatient + g;
      OffsetMonotone(gs, g + 1, |gs|);
      AllNotesAt(gs, |gs|, g, first, firstPatient, textOf, baseTime, createdAt);
      if patientId != 0 {
        var j := 0;
        while j < |gs[g]|
          invariant 0 <= j <= |gs[g]|
          invariant db.Valid()
          invariant db.patients == old(db.patients) && db.nextPatientId == old(db.nextPatientId)
          invariant db.nextNoteId == first + total + j
          invariant db.notes == ExtendNotes(notes0, rows, total + j)
          invariant db.log == log0 + AddedRange(NotesTable, first, total + j)
        {
          var note := SeedNoteRow(db.nextNoteId, patientId, gs[g][j], textOf, baseTime, createdAt);
          assert note == rows[total + j];
          AppendAssoc(log0, AddedRange(NotesTable, first, total + j), [Added(NotesTable, note.id)]);
          db.AddNote(note);
          j := j + 1;
        }
        total := total + j;
      }
      g := g + 1;
    }
  }

  /** `seed_database`: nothing when there are patients and no `force`;
      otherwise the forced wipe when there is something to wipe, then the
      seed data. */
  method SeedDatabase(db: Database, force: bool, importTime: int, now: int)
    requires db.Valid()
    modifies db
    ensures db.Valid()
    ensures old(db.patients) != map[] && !force ==>
      db.patients == old(db.patients) && db.notes == old(db.notes)
      && db.nextPatientId == old(db.nextPatientId) && db.nextNoteId == old(db.nextNoteId)
      && db.log == old(db.log)
    ensures old(db.patients) == map[] || force ==>
      db.patients == SeededPatients(old(db.nextPatientId), now)
      && db.notes == SeededNotes(old(db.nextNoteId), old(db.nextPatientId), now - 30 * SecondsPerDay, CreatedAt(importTime, now))
      && db.nextPatientId == old(db.nextPatientId) + |SeedPatients|
      && db.nextNoteId == old(db.nextNoteId) + SeedNoteCount
      && db.log == old(db.log) + WipeLog(Rows(old(db.patients), old(db.nextPatientId)))
                   + SeedLog(old(db.nextPatientId), old(db.nextNoteId))
  {
    var existing := Rows(db.patients, db.nextPatientId);
    PatientRowsShape(db);
    if existing != [] && !force {
      return;
    }
    ghost var log0 := db.log;
    if force && existing != [] {
      DeleteAllPatients(db);
      db.Record(Committed);
    } else {
      EmptyStore(db);
    }
    assert db.log == log0 + WipeLog(existing);
    AddSeedData(db, importTime, now);
  }

  /** The seeding proper, from empty tables: the five patients, a commit,
      their refreshes, the twelve notes dated from thirty days before
      `now`, and a commit. Patients take the database clock `now`; a
      note's `created_at` is the corrected per-insert default `CreatedAt`,
      not the import-time value the declared default gives. */
  method AddSeedData(db: Database, importTime: int, now: int)
    requires db.Valid() && db.patients == map[] && db.notes == map[]
    modifies db
    ensures db.Valid()
    ensures db.patients == SeededPatients(old(db.nextPatientId), now)
    ensures db.notes == SeededNotes(old(db.nextNoteId), old(db.nextPatientId), now - 30 * SecondsPerDay, CreatedAt(importTime, now))
    ensures db.nextPatientId == old(db.nextPatientId) + |SeedPatients|
    ensures db.nextNoteId == old(db.nextNoteId) + SeedNoteCount
    ensures db.log == old(db.log) + SeedLog(old(db.nextPatientId), old(db.nextNoteId))
  {
    ghost var log0 := db.log;
    var firstPatient := db.nextPatientId;
    var firstNote := db.nextNoteId;
    AddSeedPatients(db, now);
    db.Record(Committed);
    RefreshPatients(db, firstPatient, |SeedPatients|);
    SeededPatientsFacts(firstPatient, now);
    ghost var log1 := db.log;
    var baseTime := now - 30 * SecondsPerDay;
    var total := AddSeedNotes(db, SeedNoteGroups, firstPatient, TextOf, baseTime, CreatedAt(importTime, now));
    SeedNoteTotal();
    db.Record(Committed);
    SeedLogSteps(log0, log1, db.log, firstPatient, firstNote);
  }

  lemma SeedLogSteps(log0: seq<SessionOp>, log1: seq<SessionOp>, log2: seq<SessionOp>, firstPatient: int, firstNote: int)
    requires log1 == log0 + AddedRange(PatientsTable, firstPatient, |SeedPatients|) + [Committed]
                   + RefreshedRange(PatientsTable, firstPatient, |SeedPatients|)
    requires log2 == log1 + AddedRange(NotesTable, firstNote, SeedNoteCount) + [Committed]
    ensures log2 == log0 + SeedLog(firstPatient, firstNote)
  {
  }

  /** `clear_database`: every note deleted, then every patient, then one
      commit. */
  method ClearDatabase(db: Database)
    requires db.Valid()
    modifies db
    ensures db.Valid()
    ensures db.patients == map[] && db.notes == map[]
    ensures db.nextPatientId == old(db.nextPatientId) && db.nextNoteId == old(db.nextNoteId)
    ensures db.log == old(db.log) + ClearLog(Rows(old(db.notes), old(db.nextNoteId)), Rows(old(db.patients), old(db.nextPatientId)))
  {
    ghost var ps := Rows(db.patients, db.nextPatientId);
    ghost var ns := Rows(db.notes, db.nextNoteId);
    PatientRowsShape(db);
    NoteRowsShape(db);
    ghost var log0 := db.log;
    DeleteAllNotes(db);
    ghost var log1 := db.log;
    DeleteAllPatients(db);
    db.Record(Committed);
    ClearLogSteps(log0, log1, db.log, ns, ps);
  }

  lemma ClearLogSteps(log0: seq<SessionOp>, log1: seq<SessionOp>, log2: seq<SessionOp>, ns: seq<Note>, ps: seq<Patient>)
    requires log1 == log0 + NoteDeletions(ns, |ns|)
    requires log2 == log1 + PatientDeletions(ps, |ps|) + [Committed]
    ensures log2 == log0 + ClearLog(ns, ps)
  {
  }

  /** A delete per listed note; the patients stay. */
  method DeleteAllNotes(db: Database)
    requires db.Valid()
    modifies db
    ensures db.Valid()
    ensures db.patients == old(db.patients) && db.notes == map[]
    ensures db.nextPatientId == old(db.nextPatientId) && db.nextNoteId == old(db.nextNoteId)
    ensures var ns := Rows(old(db.notes), old(db.nextNoteId));
      db.log == old(db.log) + NoteDeletions(ns, |ns|)
  {
    var ns := Rows(db.notes, db.nextNoteId);
    NoteIdsListed(db);
    ghost var oldKeys := db.notes.Keys;
    ghost var log0 := db.log;
    var i := 0;
    while i < |ns|
      invariant 0 <= i <= |ns|
      invariant db.Valid()
      invariant db.patients == old(db.patients)
      invariant db.nextPatientId == old(db.nextPatientId) && db.nextNoteId == old(db.nextNoteId)
      invariant db.notes.Keys <= oldKeys
      invariant forall j :: 0 <= j < i ==> ns[j].id !in db.notes
      invariant db.log == log0 + NoteDeletions(ns, i)
    {
      NoteStillGone(db.notes, ns, i);
      AppendAssoc(log0, NoteDeletions(ns, i), [Deleted(NotesTable, ns[i].id)]);
      db.DeleteNoteRow(ns[i].id);
      i := i + 1;
    }
    NoNoteLeft(db.notes, ns, oldKeys);
  }

  lemma NoteStillGone(m: map<int, Note>, ns: seq<Note>, i: int)
    requires 0 <= i < |ns|
    requires forall j :: 0 <= j < i ==> ns[j].id !in m
    ensures forall j :: 0 <= j < i + 1 ==> ns[j].id !in m - {ns[i].id}
  {
  }

  lemma NoNoteLeft(m: map<int, Note>, ns: seq<Note>, keys: set<int>)
    requires NoteIdsIn(ns) == keys && m.Keys <= keys
    requires forall j :: 0 <= j < |ns| ==> ns[j].id !in m
    ensures m == map[]
  {
    assert m.Keys == {};
  }

  // ---------------------------------------------------------------------
  // What the seed leaves behind

  /** The patients table right after seeding. */
  function SeededPatients(firstPatient: int, now: int): map<int, Patient> {
    ExtendPatients(map[], SeedPatientList(firstPatient, now), |SeedPatients|)
  }

  /** The seed notes, in insertion order. */
  function SeedNoteList(firstNote: int, firstPatient: int, baseTime: int, createdAt: int): seq<Note> {
    AllNotes(SeedNoteGroups, |SeedNoteGroups|, firstNote, firstPatient, TextOf, baseTime, createdAt)
  }

  /** The notes table right after seeding. */
  function SeededNotes(firstNote: int, firstPatient: int, baseTime: int, createdAt: int): map<int, Note> {
    SeedNoteTotal();
    ExtendNotes(map[], SeedNoteList(firstNote, firstPatient, baseTime, createdAt), SeedNoteCount)
  }

  /** Five patients under consecutive ids, with the seed names and dates
      of birth and both timestamps at `now`. */
  lemma SeededPatientsFacts(firstPatient: int, now: int)
    ensures forall k :: k in SeededPatients(firstPatient, now) <==> firstPatient <= k < firstPatient + 5
    ensures |SeededPatients(firstPatient, now)| == 5
    ensures forall i :: 0 <= i < 5 ==>
      SeededPatients(firstPatient, now)[firstPatient + i]
        == Patient(firstPatient + i, SeedPatients[i].name, SeedPatients[i].dateOfBirth, now, now)
  {
    var list := SeedPatientList(firstPatient, now);
    ExtendPatientsKeys(map[], list, 5, firstPatient);
    ExtendPatientsValues(map[], list, 5, firstPatient);
    forall i | 0 <= i < 5
      ensures SeededPatients(firstPatient, now)[firstPatient + i]
        == Patient(firstPatient + i, SeedPatients[i].name, SeedPatients[i].dateOfBirth, now, now)
    {
      assert list[i].id == firstPatient + i;
    }
  }

  /** Twelve notes in all. */
  lemma SeedNoteTotal()
    ensures Offset(SeedNoteGroups, |SeedNoteGroups|) == SeedNoteCount
  {
    var gs := SeedNoteGroups;
    assert |gs| == 5;
    assert |gs[0]| == 3 && |gs[1]| == 3 && |gs[2]| == 2 && |gs[3]| == 2 && |gs[4]| == 2;
    assert Offset(gs, 1) == 3;
    assert Offset(gs, 2) == 6;
    assert Offset(gs, 3) == 8;
    assert Offset(gs, 4) == 10;
  }

  /** Twelve notes under consecutive ids from `firstNote`, each owned by
      one of the five seed patients. */
  lemma SeededNotesFacts(firstNote: int, firstPatient: int, baseTime: int, createdAt: int)
    ensures forall k :: k in SeededNotes(firstNote, firstPatient, baseTime, createdAt) <==> firstNote <= k < firstNote + 12
    ensures |SeededNotes(firstNote, firstPatient, baseTime, createdAt)| == 12
    ensures forall k :: k in SeededNotes(firstNote, firstPatient, baseTime, createdAt) ==>
      SeededNotes(firstNote, firstPatient, baseTime, createdAt)[k].id == k
      && firstPatient <= SeededNotes(firstNote, firstPatient, baseTime, createdAt)[k].patientId < firstPatient + 5
  {
    var list := SeedNoteList(firstNote, firstPatient, baseTime, createdAt);
    SeedNoteTotal();
    AllNotesShape(SeedNoteGroups, |SeedNoteGroups|, firstNote, firstPatient, TextOf, baseTime, createdAt);
    ExtendNotesKeys(map[], list, 12, firstNote);
    ExtendNotesValues(map[], list, 12, firstNote);
    forall k | k in SeededNotes(firstNote, firstPatient, baseTime, createdAt)
      ensures SeededNotes(firstNote, firstPatient, baseTime, createdAt)[k] == list[k - firstNote]
    {
      assert list[k - firstNote].id == k;
    }
  }

  /** Note `j` of group `i` is stored under id `firstNote` plus its
      position. */
  lemma StoredNoteAt(gs: seq<seq<SeedNote>>, firstNote: int, firstPatient: int, textOf: SeedText -> string,
                     baseTime: int, createdAt: int, i: nat, j: nat)
    requires i < |gs| && j < |gs[i]|
    ensures var id := firstNote + Offset(gs, i) + j;
      Offset(gs, i) + j < Offset(gs, |gs|)
      && id in ExtendNotes(map[], AllNotes(gs, |gs|, firstNote, firstPatient, textOf, baseTime, createdAt), Offset(gs, |gs|))
      && ExtendNotes(map[], AllNotes(gs, |gs|, firstNote, firstPatient, textOf, baseTime, createdAt), Offset(gs, |gs|))[id]
         == SeedNoteRow(id, firstPatient + i, gs[i][j], textOf, baseTime, createdAt)
  {
    var list := AllNotes(gs, |gs|, firstNote, firstPatient, textOf, baseTime, createdAt);
    AllNotesShape(gs, |gs|, firstNote, firstPatient, textOf, baseTime, createdAt);
    AllNotesAt(gs, |gs|, i, firstNote, firstPatient, textOf, baseTime, createdAt);
    ExtendNotesValues(map[], list, |list|, firstNote);
    var k := Offset(gs, i) + j;
    OffsetMonotone(gs, i + 1, |gs|);
    assert k < Offset(gs, i + 1) <= |list|;
    assert list[k] == SeedNoteRow(firstNote + k, firstPatient + i, gs[i][j], textOf, baseTime, createdAt);
  }

  /** Patient `firstPatient + i` ends up owning exactly the notes of
      group `i`. */
  lemma StoredNotesOwned(gs: seq<seq<SeedNote>>, firstNote: int, firstPatient: int, textOf: SeedText -> string,
                         baseTime: int, createdAt: int, i: nat)
    requires i < |gs|
    ensures |NoteIdsOf(ExtendNotes(map[], AllNotes(gs, |gs|, firstNote, firstPatient, textOf, baseTime, createdAt), Offset(gs, |gs|)),
                       firstPatient + i)| == |gs[i]|
  {
    var list := AllNotes(gs, |gs|, firstNote, firstPatient, textOf, baseTime, createdAt);
    AllNotesShape(gs, |gs|, firstNote, firstPatient, textOf, baseTime, createdAt);
    ExtendOwnedCount(map[], list, |list|, firstNote, firstPatient + i);
    AllNotesOwned(gs, |gs|, firstNote, firstPatient, textOf, baseTime, createdAt, i);
    assert NoteIdsOf(map[], firstPatient + i) == {};
  }

  /** Seed note `j` of patient `i` is stored under id `firstNote` plus
      the number of seed notes before it, as that note's row: its text,
      its clinical time `dayOffset` days after `baseTime`, and
      `createdAt`. */
  lemma SeededNoteAt(firstNote: int, firstPatient: int, baseTime: int, createdAt: int, i: nat, j: nat)
    requires i < |SeedNoteGroups| && j < |SeedNoteGroups[i]|
    ensures firstNote + Offset(SeedNoteGroups, i) + j in SeededNotes(firstNote, firstPatient, baseTime, createdAt)
    ensures SeededNotes(firstNote, firstPatient, baseTime, createdAt)[firstNote + Offset(SeedNoteGroups, i) + j]
         == SeedNoteRow(firstNote + Offset(SeedNoteGroups, i) + j, firstPatient + i, SeedNoteGroups[i][j], TextOf, baseTime, createdAt)
  {
    SeedNoteTotal();
    StoredNoteAt(SeedNoteGroups, firstNote, firstPatient, TextOf, baseTime, createdAt, i, j);
  }

  /** Each seed patient gets exactly the notes of its group: three, three,
      two, two and two. */
  lemma SeededNotesPerPatient(firstNote: int, firstPatient: int, baseTime: int, createdAt: int, i: nat)
    requires i < |SeedNoteGroups|
    ensures |NoteIdsOf(SeededNotes(firstNote, firstPatient, baseTime, createdAt), firstPatient + i)| == |SeedNoteGroups[i]|
    ensures |SeedNoteGroups[i]| == if i < 2 then 3 else 2
  {
    SeedNoteTotal();
    StoredNotesOwned(SeedNoteGroups, firstNote, firstPatient, TextOf, baseTime, createdAt, i);
  }
}
