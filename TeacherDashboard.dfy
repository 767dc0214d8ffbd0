/**
  The teacher's dashboard: the grade code shown while scores are typed in (`getGrade` and
  the CA/exam change handlers), the list of subject rows a teacher fills in for one student
  and its validation before it is posted, and the grade each posted row carries.
  The requests themselves are left out; the model says what would be posted.
 */
module TeacherDashboard {
  import opened Numbers
  import opened Grading
  import opened Records


  // ---------------------------------------------------------------- getGrade

  /** The whole-number percentage `getGrade` grades: a value in (0, 1] is read as a
      fraction and scaled by 100, the result rounded and clamped to 0..100. */
  function Normalise(p: real): (n: int)
    ensures 0 <= n <= 100
    ensures p <= 0.0 ==> n == 0 || (n == Round(p) && p > -0.5)
    ensures p < -0.5 ==> n == 0
    ensures p > 100.0 ==> n == 100
    ensures 1.0 < p <= 100.0 ==> n == Round(p)
    ensures 0.0 < p <= 1.0 ==> n == Round(p * 100.0)
  {
    var scaled := if p > 0.0 && p <= 1.0 then p * 100.0 else p;
    var r := Round(scaled);
    if r < 0 then 0 else if r > 100 then 100 else r
  }

  /** The explicit inclusive ranges of `getGrade`: 75-100 A1, 70-74 B2, 65-69 B3,
      60-64 C6, 55-59 D7, 50-54 E8, anything else F9. */
  function IntBand(n: int): Band
  {
    if 75 <= n <= 100 then A1
    else if 70 <= n <= 74 then B2
    else if 65 <= n <= 69 then B3
    else if 60 <= n <= 64 then C6
    else if 55 <= n <= 59 then D7
    else if 50 <= n <= 54 then E8
    else F9
  }

  /** On the percentages `getGrade` can reach, its ranges are the scale the report card
      uses: the band of n is the band of n read as an average. */
  lemma IntBandIsReportScale(n: int)
    requires 0 <= n <= 100
    ensures IntBand(n) == BandOf(n as real)
  {
  }

  /** `getGrade(percent)`, given what `parseFloat` makes of the trimmed input (None for
      NaN): the empty string for a non-number, else the code of the normalised band. */
  function GetGrade(parsed: Option<real>): (g: string)
    ensures parsed.None? <==> g == ""
    ensures parsed.Some? ==> g in ["A1", "B2", "B3", "C6", "D7", "E8", "F9"]
    ensures parsed.Some? ==> g == Code(BandOf(Normalise(parsed.value) as real))
  {
    match parsed
    case None => ""
    case Some(p) =>
      IntBandIsReportScale(Normalise(p));
      Code(IntBand(Normalise(p)))
  }

  /** Out-of-range input is clamped: negative values grade F9, values over 100 grade A1. */
  lemma GetGradeClamps(p: real)
    ensures p < 0.0 ==> GetGrade(Some(p)) == "F9"
    ensures p > 100.0 ==> GetGrade(Some(p)) == "A1"
  {
  }

  /** Reading (0, 1] as a fraction makes `getGrade` non-monotone: 1 grades A1 but 2 grades F9. */
  lemma FractionQuirk()
    ensures GetGrade(Some(1.0)) == "A1" && GetGrade(Some(2.0)) == "F9"
    ensures GetGrade(Some(0.75)) == GetGrade(Some(75.0))
  {
    assert Round(100.0) == 100;
    assert Round(75.0) == 75;
    assert Round(0.75 * 100.0) == 75;
  }

  /** A higher input never gets a worse grade, except from a fraction in (0, 1] to a
      value above 1. */
  lemma GetGradeMonotone(x: real, y: real)
    requires x <= y
    requires !(0.0 < x <= 1.0 < y)
    ensures Rank(IntBand(Normalise(x))) <= Rank(IntBand(Normalise(y)))
  {
    var sx := if x > 0.0 && x <= 1.0 then x * 100.0 else x;
    var sy := if y > 0.0 && y <= 1.0 then y * 100.0 else y;
    assert sx <= sy;
    RoundMonotone(sx, sy);
    IntBandIsReportScale(Normalise(x));
    IntBandIsReportScale(Normalise(y));
    BandOfMonotone(Normalise(x) as real, Normalise(y) as real);
  }

  /** For a whole-number percentage above 1 (or 0), the grade of the percentage and the
      grade of the same value given as a fraction of 100 agree. */
  lemma FractionOfHundred(t: int)
    requires t == 0 || 1 < t <= 100
    ensures GetGrade(Some(t as real)) == GetGrade(Some(t as real / 100.0))
  {
    if t > 1 {
      assert t as real / 100.0 * 100.0 == t as real;
    }
  }

  // ---------------------------------------------------------------- live grade on edit

  /** `Number(x || 0)` with NaN then read as 0: the numeric part of a field, 0 otherwise. */
  function ScoreValue(c: Cell): int
  {
    NumOr0(c)
  }

  /** The grade shown after one of the CA or exam inputs changes to `edited`, the other
      holding `other` (`Missing` when it was never set): empty when the total is 0, the new
      value is empty and the other field is empty or unset; otherwise the grade of the
      rounded total. The total test is implied by the other two. */
  function LiveGrade(edited: Cell, other: Cell): (g: string)
    ensures g == "" <==> edited.Empty? && (other.Empty? || other.Missing?)
    ensures g != "" ==> g == GetGrade(Some((ScoreValue(edited) + ScoreValue(other)) as real))
  {
    var total := ScoreValue(edited) + ScoreValue(other);
    var totalInt := Round(total as real);
    if total == 0 && edited.Empty? && (other.Empty? || other.Missing?) then ""
    else GetGrade(Some(totalInt as real))
  }

  /** A total of one mark is graded A1, since `getGrade` takes 1 for a fraction. */
  lemma OneMarkGradesA1()
    ensures LiveGrade(Num(1), Missing) == "A1"
  {
    assert Round(1.0) == 1;
    assert Round(100.0) == 100;
  }

  /** The CA, exam and grade entries of the grade-entry form, keyed by student id. */
  class GradeEntry {
    var caScores: map<string, Cell>
    var examScores: map<string, Cell>
    var gradeScores: map<string, string>

    constructor ()
      ensures caScores == map[] && examScores == map[] && gradeScores == map[]
    {
      caScores := map[];
      examScores := map[];
      gradeScores := map[];
    }

    /** The entry of a student in one of the maps (`undefined` when absent). */
    static function Entry(m: map<string, Cell>, studentId: string): Cell
    {
      if studentId in m then m[studentId] else Missing
    }

    /** `handleCaChange`: store the new CA value and recompute the student's grade. */
    method HandleCaChange(studentId: string, value: Cell)
      modifies this
      ensures caScores == old(caScores)[studentId := value]
      ensures examScores == old(examScores)
      ensures gradeScores == old(gradeScores)[studentId := LiveGrade(value, Entry(examScores, studentId))]
    {
      caScores := caScores[studentId := value];
      var grade := LiveGrade(value, Entry(examScores, studentId));
      gradeScores := gradeScores[studentId := grade];
    }

    /** `handleExamChange`: store the new exam value and recompute the student's grade. */
    method HandleExamChange(studentId: string, value: Cell)
      modifies this
      ensures examScores == old(examScores)[studentId := value]
      ensures caScores == old(caScores)
      ensures gradeScores == old(gradeScores)[studentId := LiveGrade(value, Entry(caScores, studentId))]
    {
      examScores := examScores[studentId := value];
      var grade := LiveGrade(value, Entry(caScores, studentId));
      gradeScores := gradeScores[studentId := grade];
    }
  }

  // ---------------------------------------------------------------- batch rows

  /** One row of the "add several subjects" list. */
  datatype BatchRow = BatchRow(subject: string, ca1: Cell, ca2: Cell, exam: Cell, grade: string, remark: string)

  /** The row a new line starts with: every field the empty string. */
  const EmptyRow := BatchRow("", Empty, Empty, Empty, "", "")

  /** Setting one field of a row to a typed value. */
  datatype Edit =
    | SetSubject(s: string) | SetCa1(c: Cell) | SetCa2(c: Cell) | SetExam(c: Cell)
    | SetGrade(s: string) | SetRemark(s: string)

  /** `{ ...row, [field]: value }`. */
  function Apply(row: BatchRow, e: Edit): BatchRow
  {
    match e
    case SetSubject(s) => row.(subject := s)
    case SetCa1(c) => row.(ca1 := c)
    case SetCa2(c) => row.(ca2 := c)
    case SetExam(c) => row.(exam := c)
    case SetGrade(s) => row.(grade := s)
    case SetRemark(s) => row.(remark := s)
  }

  /** `handleAddBatchRow`: one empty row appended. */
  function AddRow(rows: seq<BatchRow>): (r: seq<BatchRow>)
    ensures |r| == |rows| + 1 && r[..|rows|] == rows && r[|rows|] == EmptyRow
  {
    rows + [EmptyRow]
  }

  /** `handleBatchRowChange`: the row at idx gets the edit, every other row is kept; an
      index outside the list changes nothing. */
  function ChangeRow(rows: seq<BatchRow>, idx: int, e: Edit): (r: seq<BatchRow>)
    ensures |r| == |rows|
    ensures forall i :: 0 <= i < |rows| && i != idx ==> r[i] == rows[i]
    ensures 0 <= idx < |rows| ==> r[idx] == Apply(rows[idx], e)
    ensures !(0 <= idx < |rows|) ==> r == rows
  {
    seq(|rows|, i requires 0 <= i < |rows| => if i == idx then Apply(rows[i], e) else rows[i])
  }

  /** An edit sets its field and leaves the other five as they were; editing a field back
      to its old value restores the row. */
  lemma EditTouchesOneField(row: BatchRow, c: Cell)
    ensures Apply(row, SetCa1(c)) == BatchRow(row.subject, c, row.ca2, row.exam, row.grade, row.remark)
    ensures Apply(Apply(row, SetCa1(c)), SetCa1(row.ca1)) == row
    ensures Apply(Apply(row, SetExam(c)), SetExam(row.exam)) == row
  {
  }

  /** `handleRemoveBatchRow`: `filter((_, i) => i !== idx)`. */
  function RemoveRow(rows: seq<BatchRow>, idx: int): (r: seq<BatchRow>)
    ensures |r| == if 0 <= idx < |rows| then |rows| - 1 else |rows|
    ensures forall x :: x in r ==> x in rows
  {
    if rows == [] then []
    else if idx == |rows| - 1 then rows[..|rows| - 1]
    else RemoveRow(rows[..|rows| - 1], idx) + [rows[|rows| - 1]]
  }

  /** Removing deletes exactly the row at idx and keeps the others in order; an index
      outside the list removes nothing. */
  lemma {:induction false} RemoveRowSlices(rows: seq<BatchRow>, idx: int)
    ensures 0 <= idx < |rows| ==> RemoveRow(rows, idx) == rows[..idx] + rows[idx + 1..]
    ensures !(0 <= idx < |rows|) ==> RemoveRow(rows, idx) == rows
  {
    if rows != [] {
      var n := |rows| - 1;
      RemoveRowSlices(rows[..n], idx);
      if 0 <= idx < n {
        assert rows[..n][..idx] == rows[..idx];
        assert rows[..n][idx + 1..] + [rows[n]] == rows[idx + 1..];
      } else if idx != n {
        assert rows[..n] + [rows[n]] == rows;
      }
    }
  }

  /** Adding a row and removing the new last one gives back the list. */
  lemma AddThenRemove(rows: seq<BatchRow>)
    ensures RemoveRow(AddRow(rows), |rows|) == rows
  {
    assert AddRow(rows)[..|rows|] == rows;
  }

  // ---------------------------------------------------------------- validation and posting

  /** The subjects of the batch, in order. */
  function Subjects(rows: seq<BatchRow>): (s: seq<string>)
    ensures |s| == |rows| && forall i :: 0 <= i < |rows| ==> s[i] == rows[i].subject
  {
    seq(|rows|, i requires 0 <= i < |rows| => rows[i].subject)
  }

  /** No subject occurs in two rows. */
  predicate DistinctSubjects(rows: seq<BatchRow>)
  {
    forall i, j :: 0 <= i < j < |rows| ==> rows[i].subject != rows[j].subject
  }

  /** A list has as many distinct members as entries exactly when no member repeats. */
  lemma {:induction false} SetSizeDistinct(xs: seq<string>)
    ensures |set x | x in xs| <= |xs|
    ensures |set x | x in xs| == |xs| <==> forall i, j :: 0 <= i < j < |xs| ==> xs[i] != xs[j]
  {
    if xs != [] {
      var n := |xs| - 1;
      var init := xs[..n];
      SetSizeDistinct(init);
      assert (set x | x in xs) == (set x | x in init) + {xs[n]} by {
        assert xs == init + [xs[n]];
      }
      if xs[n] in init {
        assert (set x | x in xs) == (set x | x in init);
        var k :| 0 <= k < n && init[k] == xs[n];
        assert xs[k] == xs[n];
      } else {
        assert (forall i, j :: 0 <= i < j < |xs| ==> xs[i] != xs[j])
          <==> (forall i, j :: 0 <= i < j < n ==> init[i] != init[j]) by {
          forall i, j | 0 <= i < j < |xs| && j == n
            ensures xs[i] != xs[j]
          {
            assert xs[i] == init[i];
          }
        }
      }
    }
  }

  /** Whether a score field is unset (`undefined` or the empty string). */
  predicate Unset(c: Cell)
  {
    c.Missing? || c.Empty?
  }

  /** A row carries some score or a grade. */
  predicate HasContent(r: BatchRow)
  {
    !(Unset(r.ca1) && Unset(r.ca2) && Unset(r.exam) && r.grade == "")
  }

  /** Why a batch is refused, or that it is accepted. */
  datatype Verdict = Valid | DuplicateSubjects | ExistingSubject | MissingSubject(row: nat) | MissingScore(row: nat)

  /** The checks of `handleSubmitBatchResults`, in order: duplicates within the batch (by
      comparing the number of distinct subjects with the number of rows), a subject that
      already has a result, then row by row a missing subject and a row with neither a
      score nor a grade. The first failing check decides. */
  method ValidateBatch(existing: seq<string>, batch: seq<BatchRow>) returns (v: Verdict)
    ensures v == DuplicateSubjects <==> !DistinctSubjects(batch)
    ensures v == ExistingSubject <==>
      DistinctSubjects(batch) && exists i :: 0 <= i < |batch| && batch[i].subject in existing
    ensures v.MissingSubject? || v.MissingScore? || v == Valid ==>
      DistinctSubjects(batch) && forall i :: 0 <= i < |batch| ==> batch[i].subject !in existing
    ensures v.MissingSubject? ==> v.row < |batch| && batch[v.row].subject == ""
    ensures v.MissingScore? ==> v.row < |batch| && batch[v.row].subject != "" && !HasContent(batch[v.row])
    ensures v.MissingSubject? || v.MissingScore? ==>
      forall k :: 0 <= k < v.row ==> batch[k].subject != "" && HasContent(batch[k])
    ensures v == Valid ==> forall k :: 0 <= k < |batch| ==> batch[k].subject != "" && HasContent(batch[k])
  {
    var subjects := Subjects(batch);
    var hasDuplicates := |set s | s in subjects| != |batch|;
    SetSizeDistinct(subjects);
    var hasExisting := exists i :: 0 <= i < |batch| && batch[i].subject in existing;
    if hasDuplicates {
      return DuplicateSubjects;
    }
    if hasExisting {
      return ExistingSubject;
    }
    var i := 0;
    while i < |batch|
      invariant 0 <= i <= |batch|
      invariant forall k :: 0 <= k < i ==> batch[k].subject != "" && HasContent(batch[k])
    {
      var r := batch[i];
      if r.subject == "" {
        return MissingSubject(i);
      }
      if Unset(r.ca1) && Unset(r.ca2) && Unset(r.exam) && r.grade == "" {
        return MissingScore(i);
      }
      i := i + 1;
    }
    return Valid;
  }

  /** Two rows both without a subject are reported as duplicates, not as a missing subject. */
  lemma TwoBlankSubjectsAreDuplicates(a: BatchRow, b: BatchRow)
    requires a.subject == "" && b.subject == ""
    ensures !DistinctSubjects([a, b])
  {
    assert [a, b][0].subject == [a, b][1].subject;
  }

  /** A numeric field as it is posted: `undefined` when unset, else `Number(x)`, which is 0
      for blanks and NaN for text that is not a number. */
  datatype Sent = Undefined | Value(n: int) | NaN

  function SentOf(c: Cell): Sent
  {
    match c
    case Missing => Undefined
    case Empty => Undefined
    case Spaces => Value(0)
    case Num(v) => Value(v)
    case Junk => NaN
  }

  /** `Number(x || 0)` of a posted field: NaN and undefined count as 0. */
  function SentOr0(s: Sent): int
  {
    if s.Value? then s.n else 0
  }

  /** Sending a field and reading it back with `|| 0` gives the field's numeric value. */
  lemma SentRoundTrip(c: Cell)
    ensures SentOr0(SentOf(c)) == NumOr0(c)
    ensures SentOf(c) == Undefined <==> Unset(c)
  {
  }

  /** `Math.round` leaves a whole number as it is. */
  lemma WholeRoundsToItself(t: int)
    ensures Round(t as real) == t
  {
  }

  /** The grade sent with a row: its own grade when it has one, else the grade of the
      rounded total when the total is not 0, else none. */
  function GradeToSend(row: BatchRow): (g: Option<string>)
    ensures row.grade != "" ==> g == Some(row.grade)
    ensures row.grade == "" ==> (g.None? <==> NumOr0(row.ca1) + NumOr0(row.ca2) + NumOr0(row.exam) == 0)
    ensures row.grade == "" && g.Some? ==>
      var total := NumOr0(row.ca1) + NumOr0(row.ca2) + NumOr0(row.exam);
      && g.value == GetGrade(Some(Round(total as real) as real))
      && g.value == GetGrade(Some(total as real))
    ensures g.Some? ==> g.value != ""
  {
    var total := SentOr0(SentOf(row.ca1)) + SentOr0(SentOf(row.ca2)) + SentOr0(SentOf(row.exam));
    SentRoundTrip(row.ca1);
    SentRoundTrip(row.ca2);
    SentRoundTrip(row.exam);
    if row.grade != "" then Some(row.grade)
    else if total != 0 then
      WholeRoundsToItself(total);
      Some(GetGrade(Some(Round(total as real) as real)))
    else None
  }

  /** The body of one `POST /api/results/manual`. */
  datatype Payload = Payload(
    studentId: string, subject: string, ca1: Sent, ca2: Sent, score: Sent,
    grade: Option<string>, remark: Option<string>, term: string, session: string, className: string)

  function PayloadOf(studentId: string, row: BatchRow, term: string, session: string, className: string): (p: Payload)
    ensures SentOr0(p.ca1) == NumOr0(row.ca1) && SentOr0(p.ca2) == NumOr0(row.ca2) && SentOr0(p.score) == NumOr0(row.exam)
    ensures p.ca1 == Undefined <==> Unset(row.ca1)
    ensures p.ca2 == Undefined <==> Unset(row.ca2)
    ensures p.score == Undefined <==> Unset(row.exam)
    ensures p.grade == GradeToSend(row)
    ensures p.remark.None? <==> row.remark == ""
    ensures p.studentId == studentId && p.subject == row.subject
    ensures p.term == term && p.session == session && p.className == className
  {
    SentRoundTrip(row.ca1);
    SentRoundTrip(row.ca2);
    SentRoundTrip(row.exam);
    Payload(studentId, row.subject, SentOf(row.ca1), SentOf(row.ca2), SentOf(row.exam),
            GradeToSend(row), if row.remark != "" then Some(row.remark) else None,
            term, session, className)
  }

  /** `handleSubmitBatchResults`: validate, and only when the batch is valid post one body per
      row, in row order, then fetch the student's results again. The outcome of the requests
      is a parameter: `rejected` is the row whose post the server refuses, if any, and
      `refreshed` says whether the final fetch succeeds. A refused post ends the loop with the
      earlier rows already posted; a refused post or a failed fetch keeps the batch and shows
      'Error adding results.'. Only when every request succeeds is the batch cleared and
      'All results added!' shown (`added`). */
  method SubmitBatch(studentId: string, existing: seq<string>, batch: seq<BatchRow>,
                     term: string, session: string, className: string,
                     rejected: Option<nat>, refreshed: bool)
    returns (verdict: Verdict, posts: seq<Payload>, remaining: seq<BatchRow>, added: bool)
    ensures verdict != Valid ==> posts == []
    ensures verdict == Valid ==>
      var n := if rejected.Some? && rejected.value < |batch| then rejected.value + 1 else |batch|;
      && |posts| == n
      && forall i :: 0 <= i < n ==> posts[i] == PayloadOf(studentId, batch[i], term, session, className)
    ensures added <==> verdict == Valid && (rejected.None? || rejected.value >= |batch|) && refreshed
    ensures remaining == if added then [] else batch
    ensures verdict == Valid <==>
      DistinctSubjects(batch)
      && (forall i :: 0 <= i < |batch| ==> batch[i].subject !in existing)
      && (forall i :: 0 <= i < |batch| ==> batch[i].subject != "" && HasContent(batch[i]))
  {
    verdict := ValidateBatch(existing, batch);
    posts := [];
    remaining := batch;
    added := false;
    if verdict != Valid {
      return;
    }
    var i := 0;
    while i < |batch|
      invariant 0 <= i <= |batch|
      invariant rejected.Some? ==> i <= rejected.value
      invariant |posts| == i
      invariant forall k :: 0 <= k < i ==>
        posts[k] == PayloadOf(studentId, batch[k], term, session, className)
    {
      posts := posts + [PayloadOf(studentId, batch[i], term, session, className)];
      if rejected == Some(i) {
        return;
      }
      i := i + 1;
    }
    if refreshed {
      remaining := [];
      added := true;
    }
  }

  /** A row with a score but no grade and a zero total, such as CA 0 and no exam, passes
      validation yet is posted without a grade; any other row is posted with one. */
  lemma ZeroTotalSendsNoGrade(row: BatchRow)
    ensures HasContent(row) && row.grade == "" && NumOr0(row.ca1) + NumOr0(row.ca2) + NumOr0(row.exam) == 0
      ==> GradeToSend(row).None?
    ensures row.grade != "" || NumOr0(row.ca1) + NumOr0(row.ca2) + NumOr0(row.exam) != 0
      ==> GradeToSend(row).Some?
  {
  }
}
