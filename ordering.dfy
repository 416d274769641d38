/** Ordering of note listings: the note columns a listing can be sorted
    on, the `sort_by` query parameter, a stable sort (the `ORDER BY` of the
    listing queries and Python's `sorted`), the patient filter and the row
    limit. */
module Ordering {
  import opened Wrappers
  import opened Store

  datatype NoteColumn = IdColumn | PatientIdColumn | ContentColumn | TimestampColumn | CreatedAtColumn

  /** An `ORDER BY` on one column, ascending or descending. */
  datatype SortOrder = SortOrder(column: NoteColumn, ascending: bool)

  /** `PatientNote.timestamp.desc()`: newest first. */
  const NewestFirst: SortOrder := SortOrder(TimestampColumn, false)

  /** `PatientNote.timestamp`: oldest first. */
  const OldestFirst: SortOrder := SortOrder(TimestampColumn, true)

  // ---------------------------------------------------------------------
  // Comparing notes

  /** Code-point lexicographic order on text. */
  predicate LexLeq(a: string, b: string)
    decreases |a|
  {
    a == [] || (b != [] && (a[0] < b[0] || (a[0] == b[0] && LexLeq(a[1..], b[1..]))))
  }

  lemma {:induction false} LexLeqTotal(a: string, b: string)
    ensures LexLeq(a, b) || LexLeq(b, a)
    decreases |a|
  {
    if a != [] && b != [] && a[0] == b[0] {
      LexLeqTotal(a[1..], b[1..]);
    }
  }

  lemma {:induction false} LexLeqTrans(a: string, b: string, c: string)
    requires LexLeq(a, b) && LexLeq(b, c)
    ensures LexLeq(a, c)
    decreases |a|
  {
    if a != [] && b != [] && c != [] && a[0] == b[0] && b[0] == c[0] {
      LexLeqTrans(a[1..], b[1..], c[1..]);
    }
  }

  /** `a` does not come after `b` on column `c`. */
  predicate KeyLeq(c: NoteColumn, a: Note, b: Note) {
    match c
    case IdColumn => a.id <= b.id
    case PatientIdColumn => a.patientId <= b.patientId
    case ContentColumn => LexLeq(a.content, b.content)
    case TimestampColumn => a.timestamp <= b.timestamp
    case CreatedAtColumn => a.createdAt <= b.createdAt
  }

  /** `a` may come before `b` in a listing in order `o`. */
  predicate Before(o: SortOrder, a: Note, b: Note) {
    if o.ascending then KeyLeq(o.column, a, b) else KeyLeq(o.column, b, a)
  }

  lemma BeforeTotal(o: SortOrder, a: Note, b: Note)
    ensures Before(o, a, b) || Before(o, b, a)
  {
    if o.column == ContentColumn {
      LexLeqTotal(a.content, b.content);
    }
  }

  lemma BeforeTrans(o: SortOrder, a: Note, b: Note, c: Note)
    requires Before(o, a, b) && Before(o, b, c)
    ensures Before(o, a, c)
  {
    if o.column == ContentColumn {
      if o.ascending {
        LexLeqTrans(a.content, b.content, c.content);
      } else {
        LexLeqTrans(c.content, b.content, a.content);
      }
    }
  }

  /** Every note comes before every later note of the listing. */
  predicate Sorted(s: seq<Note>, o: SortOrder) {
    forall i, j :: 0 <= i < j < |s| ==> Before(o, s[i], s[j])
  }

  // ---------------------------------------------------------------------
  // Sorting

  /** Puts `x` in front of the first note it may precede. */
  function Insert(x: Note, s: seq<Note>, o: SortOrder): seq<Note>
  {
    if s == [] then [x]
    else if Before(o, x, s[0]) then [x] + s
    else [s[0]] + Insert(x, s[1..], o)
  }

  /** Insertion sort: stable, since each note goes in front of the notes
      equal to it that followed it. */
  function Sort(s: seq<Note>, o: SortOrder): seq<Note>
  {
    if s == [] then [] else Insert(s[0], Sort(s[1..], o), o)
  }

  lemma {:induction false} InsertPermutation(x: Note, s: seq<Note>, o: SortOrder)
    ensures multiset(Insert(x, s, o)) == multiset(s) + multiset{x}
    decreases |s|
  {
    if s != [] && !Before(o, x, s[0]) {
      InsertPermutation(x, s[1..], o);
      assert s == [s[0]] + s[1..];
    }
  }

  /** A note that may precede the head of a sorted listing may precede
      all of it. */
  lemma InsertFrontSorted(x: Note, s: seq<Note>, o: SortOrder)
    requires Sorted(s, o) && s != [] && Before(o, x, s[0])
    ensures Sorted([x] + s, o)
  {
    var r := [x] + s;
    forall i, j | 0 <= i < j < |r|
      ensures Before(o, r[i], r[j])
    {
      if i == 0 && j > 1 {
        BeforeTrans(o, x, s[0], s[j - 1]);
      }
    }
  }

  /** The head of a sorted listing may precede every note of its tail,
      and `x` too when `x` may not precede it. */
  lemma InsertBehindSorted(x: Note, s: seq<Note>, t: seq<Note>, o: SortOrder)
    requires Sorted(s, o) && s != [] && !Before(o, x, s[0])
    requires Sorted(t, o) && multiset(t) == multiset(s[1..]) + multiset{x}
    ensures Sorted([s[0]] + t, o)
  {
    BeforeTotal(o, x, s[0]);
    var r := [s[0]] + t;
    forall i, j | 0 <= i < j < |r|
      ensures Before(o, r[i], r[j])
    {
      if i == 0 {
        var y := t[j - 1];
        assert y in multiset(t);
        assert y == x || y in multiset(s[1..]);
        if y != x {
          var k :| 0 <= k < |s[1..]| && s[1..][k] == y;
          assert s[k + 1] == y;
        }
      }
    }
  }

  lemma {:induction false} InsertSorted(x: Note, s: seq<Note>, o: SortOrder)
    requires Sorted(s, o)
    ensures Sorted(Insert(x, s, o), o)
    decreases |s|
  {
    if s != [] {
      if Before(o, x, s[0]) {
        InsertFrontSorted(x, s, o);
      } else {
        assert Sorted(s[1..], o);
        InsertSorted(x, s[1..], o);
        InsertPermutation(x, s[1..], o);
        InsertBehindSorted(x, s, Insert(x, s[1..], o), o);
      }
    }
  }

  /** The sorted listing holds exactly the notes it was given. */
  lemma {:induction false} SortPermutation(s: seq<Note>, o: SortOrder)
    ensures multiset(Sort(s, o)) == multiset(s)
    decreases |s|
  {
    if s != [] {
      SortPermutation(s[1..], o);
      InsertPermutation(s[0], Sort(s[1..], o), o);
      assert s == [s[0]] + s[1..];
    }
  }

  /** The sorted listing is in order `o`. */
  lemma {:induction false} SortSorted(s: seq<Note>, o: SortOrder)
    ensures Sorted(Sort(s, o), o)
    decreases |s|
  {
    if s != [] {
      SortSorted(s[1..], o);
      InsertSorted(s[0], Sort(s[1..], o), o);
    }
  }

  // ---------------------------------------------------------------------
  // Reversal and uniqueness

  function Reverse(s: seq<Note>): (r: seq<Note>)
    ensures |r| == |s|
    ensures forall i :: 0 <= i < |s| ==> r[i] == s[|s| - 1 - i]
  {
    if s == [] then [] else Reverse(s[1..]) + [s[0]]
  }

  /** Reversing a listing in one direction gives a listing in the other. */
  lemma ReverseSorted(s: seq<Note>, c: NoteColumn, ascending: bool)
    requires Sorted(s, SortOrder(c, ascending))
    ensures Sorted(Reverse(s), SortOrder(c, !ascending))
  {
    var r := Reverse(s);
    forall i, j | 0 <= i < j < |r|
      ensures Before(SortOrder(c, !ascending), r[i], r[j])
    {
      assert Before(SortOrder(c, ascending), s[|s| - 1 - j], s[|s| - 1 - i]);
    }
  }

  lemma {:induction false} ReversePermutation(s: seq<Note>)
    ensures multiset(Reverse(s)) == multiset(s)
    decreases |s|
  {
    if s != [] {
      ReversePermutation(s[1..]);
      assert s == [s[0]] + s[1..];
    }
  }

  /** No two different notes of `s` tie in order `o`. */
  predicate NoTies(s: seq<Note>, o: SortOrder) {
    forall i, j :: 0 <= i < |s| && 0 <= j < |s| && Before(o, s[i], s[j]) && Before(o, s[j], s[i]) ==> s[i] == s[j]
  }

  /** Two sorted listings of the same notes start with the same note
      when no two notes tie. */
  lemma SortedHeads(a: seq<Note>, b: seq<Note>, o: SortOrder)
    requires Sorted(a, o) && Sorted(b, o) && multiset(a) == multiset(b)
    requires NoTies(a, o) && a != []
    ensures b != [] && a[0] == b[0]
  {
    assert |b| == |multiset(b)| == |a|;
    assert b[0] in multiset(a);
    assert a[0] in multiset(b);
    var i :| 0 <= i < |a| && a[i] == b[0];
    var j :| 0 <= j < |b| && b[j] == a[0];
    if i != 0 && j != 0 {
      assert Before(o, a[0], a[i]);
      assert Before(o, b[0], b[j]);
    }
  }

  lemma MultisetTail(a: seq<Note>, b: seq<Note>)
    requires a != [] && b != [] && a[0] == b[0] && multiset(a) == multiset(b)
    ensures multiset(a[1..]) == multiset(b[1..])
  {
    assert a == [a[0]] + a[1..] && b == [b[0]] + b[1..];
    assert multiset(a[1..]) == multiset(a) - multiset{a[0]};
    assert multiset(b[1..]) == multiset(b) - multiset{a[0]};
  }

  lemma SortedTail(a: seq<Note>, o: SortOrder)
    requires Sorted(a, o) && NoTies(a, o) && a != []
    ensures Sorted(a[1..], o) && NoTies(a[1..], o)
  {
    forall x, y | 0 <= x < |a[1..]| && 0 <= y < |a[1..]|
      && Before(o, a[1..][x], a[1..][y]) && Before(o, a[1..][y], a[1..][x])
      ensures a[1..][x] == a[1..][y]
    {
      assert a[1..][x] == a[x + 1] && a[1..][y] == a[y + 1];
    }
  }

  /** Without ties there is only one listing of a collection in a given
      order. */
  lemma {:induction false} SortedUnique(a: seq<Note>, b: seq<Note>, o: SortOrder)
    requires Sorted(a, o) && Sorted(b, o) && multiset(a) == multiset(b)
    requires NoTies(a, o)
    ensures a == b
    decreases |a|
  {
    if a == [] {
      assert |b| == |multiset(b)| == 0;
    } else {
      SortedHeads(a, b, o);
      MultisetTail(a, b);
      SortedTail(a, o);
      assert Sorted(b[1..], o);
      SortedUnique(a[1..], b[1..], o);
      assert a == [a[0]] + a[1..] && b == [b[0]] + b[1..];
    }
  }

  /** Distinct timestamps: "timestamp" and "-timestamp" list the same notes
      in exactly reverse orders. */
  lemma OldestIsReverseOfNewest(s: seq<Note>)
    requires forall i, j :: 0 <= i < |s| && 0 <= j < |s| && s[i].timestamp == s[j].timestamp ==> s[i] == s[j]
    ensures Sort(s, OldestFirst) == Reverse(Sort(s, NewestFirst))
  {
    var a := Sort(s, OldestFirst);
    var d := Sort(s, NewestFirst);
    SortSorted(s, OldestFirst);
    SortSorted(s, NewestFirst);
    SortPermutation(s, OldestFirst);
    SortPermutation(s, NewestFirst);
    ReverseSorted(d, TimestampColumn, false);
    ReversePermutation(d);
    assert NoTies(a, OldestFirst) by {
      forall x, y | 0 <= x < |a| && 0 <= y < |a| && a[x].timestamp == a[y].timestamp
        ensures a[x] == a[y]
      {
        assert a[x] in multiset(s) && a[y] in multiset(s);
        var p :| 0 <= p < |s| && s[p] == a[x];
        var q :| 0 <= q < |s| && s[q] == a[y];
      }
    }
    SortedUnique(a, Reverse(d), OldestFirst);
  }

  // ---------------------------------------------------------------------
  // The sort_by parameter

  /** The column a `sort_by` field name names. */
  function ColumnNamed(name: string): Option<NoteColumn> {
    if name == "id" then Some(IdColumn)
    else if name == "patient_id" then Some(PatientIdColumn)
    else if name == "content" then Some(ContentColumn)
    else if name == "timestamp" then Some(TimestampColumn)
    else if name == "created_at" then Some(CreatedAtColumn)
    else None
  }

  /** The `sort_by` parsing of `get_patient_notes`: a leading "-" asks for
      descending order on the rest of the key; no key, an empty key or a
      name that is no column falls back to newest first. */
  function ParseSortBy(sortBy: Option<string>): SortOrder
  {
    if sortBy.None? || sortBy.value == "" then NewestFirst
    else
      var ascending := sortBy.value[0] != '-';
      var field := if ascending then sortBy.value else sortBy.value[1..];
      match ColumnNamed(field)
      case Some(c) => SortOrder(c, ascending)
      case None => NewestFirst
  }

  /** The attribute name of each column of `PatientNote`. */
  function ColumnName(c: NoteColumn): string {
    match c
    case IdColumn => "id"
    case PatientIdColumn => "patient_id"
    case ContentColumn => "content"
    case TimestampColumn => "timestamp"
    case CreatedAtColumn => "created_at"
  }

  /** What a key selects. No key and the empty key give newest first; a
      column's name sorts ascending on that column and "-" before it
      descending; and ascending on `c`, or descending on `c` other than
      newest first, is chosen by exactly that one spelling. So any other
      key falls back to newest first. */
  lemma ParseSortByRoundTrip(c: NoteColumn, s: string)
    ensures ParseSortBy(None) == NewestFirst && ParseSortBy(Some("")) == NewestFirst
    ensures ParseSortBy(Some(ColumnName(c))) == SortOrder(c, true)
    ensures ParseSortBy(Some("-" + ColumnName(c))) == SortOrder(c, false)
    ensures ParseSortBy(Some(s)) == SortOrder(c, true) ==> s == ColumnName(c)
    ensures ParseSortBy(Some(s)) == SortOrder(c, false) != NewestFirst ==> s == "-" + ColumnName(c)
  {
  }

  /** "timestamp" asks for oldest first and "-timestamp" for newest first;
      "-" alone and "--timestamp" fall back to newest first. */
  lemma ParseSortByExamples()
    ensures ParseSortBy(Some("timestamp")) == OldestFirst
    ensures ParseSortBy(Some("-timestamp")) == NewestFirst
    ensures ParseSortBy(Some("content")) == SortOrder(ContentColumn, true)
    ensures ParseSortBy(Some("-")) == NewestFirst
    ensures ParseSortBy(Some("--timestamp")) == NewestFirst
    ensures ParseSortBy(Some("name")) == NewestFirst
  {
    assert "-timestamp"[1..] == "timestamp";
    assert "--timestamp"[1..] == "-timestamp";
  }

  // ---------------------------------------------------------------------
  // Filtering and the limit

  /** `.filter(PatientNote.patient_id == patientId)`. */
  function Filter(s: seq<Note>, patientId: int): seq<Note>
  {
    if s == [] then []
    else (if s[0].patientId == patientId then [s[0]] else []) + Filter(s[1..], patientId)
  }

  /** The filter keeps exactly the notes of the patient, in their order. */
  lemma {:induction false} FilterMembers(s: seq<Note>, patientId: int)
    ensures forall n :: n in Filter(s, patientId) <==> n in s && n.patientId == patientId
    ensures |Filter(s, patientId)| <= |s|
    decreases |s|
  {
    if s != [] {
      FilterMembers(s[1..], patientId);
    }
  }

  lemma {:induction false} FilterAppend(a: seq<Note>, b: seq<Note>, patientId: int)
    ensures Filter(a + b, patientId) == Filter(a, patientId) + Filter(b, patientId)
    decreases |a|
  {
    if a == [] {
      assert a + b == b;
    } else {
      assert (a + b)[0] == a[0];
      assert (a + b)[1..] == a[1..] + b;
      FilterAppend(a[1..], b, patientId);
    }
  }

  /** The ids below `n` of one patient's notes. */
  function NoteIdsBelow(m: map<int, Note>, n: int, patientId: int): set<int> {
    set k | k in m && 1 <= k < n && m[k].patientId == patientId
  }

  /** Filtering the rows keeps one row per note of the patient. */
  lemma {:induction false} FilterRowsCount(m: map<int, Note>, n: int, patientId: int)
    ensures |Filter(Rows(m, n), patientId)| == |NoteIdsBelow(m, n, patientId)|
    decreases n
  {
    if n > 1 {
      FilterRowsCount(m, n - 1, patientId);
      var extra := if n - 1 in m then [m[n - 1]] else [];
      FilterAppend(Rows(m, n - 1), extra, patientId);
      var ids: set<int> := if n - 1 in m && m[n - 1].patientId == patientId then {n - 1} else {};
      assert NoteIdsBelow(m, n, patientId) == NoteIdsBelow(m, n - 1, patientId) + ids;
      assert NoteIdsBelow(m, n - 1, patientId) !! ids;
      if n - 1 in m {
        assert extra[1..] == [];
      }
    }
  }

  /** `.limit(n)`. */
  function Take(s: seq<Note>, n: nat): seq<Note> {
    if |s| <= n then s else s[..n]
  }

  /** The query of `get_latests_patient_notes`: the patient's notes,
      newest first, at most five. */
  function LatestNotes(rows: seq<Note>, patientId: int): seq<Note> {
    Take(Sort(Filter(rows, patientId), NewestFirst), 5)
  }

  /** A listing's first `k` notes: none left out precedes them, and if
      fewer than `k` come back nothing was left out. */
  lemma TakeSpec(t: seq<Note>, k: nat, o: SortOrder)
    requires Sorted(t, o)
    ensures |Take(t, k)| <= k && Sorted(Take(t, k), o)
    ensures forall n :: n in Take(t, k) ==> n in t
    ensures forall n, x :: n in t && n !in Take(t, k) && x in Take(t, k) ==> Before(o, x, n)
    ensures |Take(t, k)| < k ==> Take(t, k) == t
  {
    var r := Take(t, k);
    assert forall i :: 0 <= i < |r| ==> r[i] == t[i];
    forall n, x | n in t && n !in r && x in r
      ensures Before(o, x, n)
    {
      var j :| 0 <= j < |t| && t[j] == n;
      var i :| 0 <= i < |r| && r[i] == x;
      assert j >= |r|;
    }
  }

  /** The sorted listing of the patient's notes: the same notes as the
      rows of that patient, newest first. */
  lemma SortFilterSpec(rows: seq<Note>, patientId: int, o: SortOrder)
    ensures forall n :: n in Sort(Filter(rows, patientId), o) <==> n in rows && n.patientId == patientId
    ensures Sorted(Sort(Filter(rows, patientId), o), o)
    ensures multiset(Sort(Filter(rows, patientId), o)) == multiset(Filter(rows, patientId))
  {
    var f := Filter(rows, patientId);
    var t := Sort(f, o);
    FilterMembers(rows, patientId);
    SortPermutation(f, o);
    SortSorted(f, o);
    forall n ensures n in t <==> n in f {
      assert n in t <==> n in multiset(t);
      assert n in f <==> n in multiset(f);
    }
  }

  /** The latest notes are at most five notes of the patient, newest
      first; no note of the patient that was left out is newer than a
      returned one; and fewer than five come back only when the patient
      has no others. */
  lemma LatestNotesSpec(rows: seq<Note>, patientId: int)
    ensures |LatestNotes(rows, patientId)| <= 5
    ensures forall n :: n in LatestNotes(rows, patientId) ==> n in rows && n.patientId == patientId
    ensures Sorted(LatestNotes(rows, patientId), NewestFirst)
    ensures forall n, x ::
      n in rows && n.patientId == patientId && n !in LatestNotes(rows, patientId) && x in LatestNotes(rows, patientId)
      ==> n.timestamp <= x.timestamp
    ensures |LatestNotes(rows, patientId)| < 5 ==>
      forall n :: n in rows && n.patientId == patientId ==> n in LatestNotes(rows, patientId)
  {
    SortFilterSpec(rows, patientId, NewestFirst);
    TakeSpec(Sort(Filter(rows, patientId), NewestFirst), 5, NewestFirst);
  }
}
