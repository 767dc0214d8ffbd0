/**
  The figures printed on a student's report card by `GET /:student_id/result/pdf`:
  the grand total and term average of the student's approved results with its grade,
  the class average, highest and lowest over classmates' averages, per-subject class
  statistics, totals of earlier terms and the cumulative average per subject.
  Database rows are inputs; every query is replaced by the list it returns.
 */
module ReportCard {
  import opened Numbers
  import opened Records
  import opened Grading


  /** The terms of a session in chronological order. */
  const TermOrder: seq<string> := ["1st Term", "2nd Term", "3rd Term"]

  /** `termOrder.indexOf(term)`: the term's position in the session, -1 for an unknown term. */
  function TermIndex(term: string): (k: int)
    ensures -1 <= k < |TermOrder|
    ensures k >= 0 ==> TermOrder[k] == term
    ensures k == -1 <==> term !in TermOrder
  {
    if term == TermOrder[0] then 0
    else if term == TermOrder[1] then 1
    else if term == TermOrder[2] then 2
    else -1
  }

  /** The printed average when there is nothing to average (the literal '0.00'). */
  const NoAverage: real := 0.0

  /** The student's term average: the grand total over the number of approved results,
      to two places, or '0.00' when there are none. */
  function TermAverage(results: seq<ScoreRecord>): (avg: real)
    ensures results == [] ==> avg == NoAverage
    ensures results != [] ==>
      var mean := GrandTotal(results) as real / |results| as real;
      mean - 0.005 <= avg <= mean + 0.005
  {
    if |results| > 0 then ToFixed(GrandTotal(results) as real / |results| as real, 100)
    else NoAverage
  }

  /** `getCumulativeGrade(termAverage)`: the descriptive band of the printed average. */
  function TermGrade(results: seq<ScoreRecord>): (g: string)
    ensures g == "A1 (Excellent)" <==> TermAverage(results) >= 75.0
    ensures g == "F9 (Fail)" <==> TermAverage(results) < 50.0
    ensures Code(BandOf(TermAverage(results))) <= g
  {
    Descriptive(BandOf(TermAverage(results)))
  }

  /** A report without approved results shows '0.00' and the failing band. */
  lemma NoResultsFail()
    ensures TermAverage([]) == 0.0 && TermGrade([]) == "F9 (Fail)"
  {
  }

  /** Only the band of the printed average matters, and the band is monotone in it:
      a student with a higher average never gets a worse grade. */
  lemma TermGradeMonotone(a: seq<ScoreRecord>, b: seq<ScoreRecord>)
    requires TermAverage(a) <= TermAverage(b)
    ensures Rank(BandOf(TermAverage(a))) <= Rank(BandOf(TermAverage(b)))
  {
    BandOfMonotone(TermAverage(a), TermAverage(b));
  }

  /** The unrounded average of a non-empty result list. */
  function Mean(rs: seq<ScoreRecord>): real
    requires rs != []
  {
    GrandTotal(rs) as real / |rs| as real
  }

  /** The averages of the classmates that have at least one approved result, in class order:
      `studentAverages` after the loop. */
  function StudentAverages(classmates: seq<seq<ScoreRecord>>): (avgs: seq<real>)
    ensures |avgs| <= |classmates|
  {
    if classmates == [] then []
    else
      var init := StudentAverages(classmates[..|classmates| - 1]);
      var last := classmates[|classmates| - 1];
      if last != [] then init + [Mean(last)] else init
  }

  /** The number of classmates with at least one approved result. */
  function Reporting(classmates: seq<seq<ScoreRecord>>): nat
  {
    if classmates == [] then 0
    else Reporting(classmates[..|classmates| - 1]) + (if classmates[|classmates| - 1] != [] then 1 else 0)
  }

  /** The cohort statistic is built from exactly one average per classmate with approved
      results; classmates with none are left out rather than counted as 0. */
  lemma {:induction false} OneAveragePerReportingStudent(classmates: seq<seq<ScoreRecord>>)
    ensures |StudentAverages(classmates)| == Reporting(classmates)
    ensures StudentAverages(classmates) == [] <==> forall i :: 0 <= i < |classmates| ==> classmates[i] == []
  {
    if classmates != [] {
      var init := classmates[..|classmates| - 1];
      OneAveragePerReportingStudent(init);
      assert forall i :: 0 <= i < |init| ==> init[i] == classmates[i];
    }
  }

  /** The class average, highest and lowest average, each to two places. */
  datatype ClassStats = ClassStats(average: real, highest: real, lowest: real)

  /** What the report shows when no classmate has an approved result. */
  const NoClassStats := ClassStats(NoAverage, NoAverage, NoAverage)

  /** The cohort loop: for each classmate (given as the approved results the query returns
      for them) add the student's average when there is one; then average the averages and
      take their maximum and minimum. */
  method CohortStatistics(classmates: seq<seq<ScoreRecord>>) returns (stats: ClassStats, studentAverages: seq<real>)
    ensures studentAverages == StudentAverages(classmates)
    ensures studentAverages == [] ==> stats == NoClassStats
    ensures studentAverages != [] ==>
      && stats.average == ToFixed(SumReal(studentAverages) / |studentAverages| as real, 100)
      && stats.highest == ToFixed(MaxReal(studentAverages), 100)
      && stats.lowest == ToFixed(MinReal(studentAverages), 100)
    ensures stats.lowest <= stats.average <= stats.highest
  {
    var sumOfAverages := 0.0;
    var studentCount := 0;
    studentAverages := [];
    var i := 0;
    while i < |classmates|
      invariant 0 <= i <= |classmates|
      invariant studentAverages == StudentAverages(classmates[..i])
      invariant sumOfAverages == SumReal(studentAverages)
      invariant studentCount == |studentAverages|
    {
      var sResults := classmates[i];
      assert classmates[..i + 1][..i] == classmates[..i];
      if |sResults| > 0 {
        var sAverage := GrandTotal(sResults) as real / |sResults| as real;
        sumOfAverages := sumOfAverages + sAverage;
        studentAverages := studentAverages + [sAverage];
        assert studentAverages[..|studentAverages| - 1] == studentAverages[..|studentAverages| - 1];
        studentCount := studentCount + 1;
      }
      i := i + 1;
    }
    assert classmates[..i] == classmates;
    stats := NoClassStats;
    if studentCount > 0 {
      var mean := sumOfAverages / studentCount as real;
      MeanRealWithinRange(studentAverages);
      ToFixedMonotone(MinReal(studentAverages), mean, 100);
      ToFixedMonotone(mean, MaxReal(studentAverages), 100);
      stats := ClassStats(ToFixed(mean, 100), ToFixed(MaxReal(studentAverages), 100),
                          ToFixed(MinReal(studentAverages), 100));
    }
  }

  /** The totals (`ca1 + ca2 + score`) of the class rows for one subject, in row order. */
  function TotalsOf(rows: seq<ScoreRecord>, subject: string): (ts: seq<int>)
    ensures |ts| <= |rows|
  {
    if rows == [] then []
    else if rows[|rows| - 1].subject == subject then TotalsOf(rows[..|rows| - 1], subject) + [SubjectTotal(rows[|rows| - 1])]
    else TotalsOf(rows[..|rows| - 1], subject)
  }

  /** A subject with a row in the class has at least one total. */
  lemma {:induction false} TotalsOfPresent(rows: seq<ScoreRecord>, subject: string, i: int)
    requires 0 <= i < |rows| && rows[i].subject == subject
    ensures TotalsOf(rows, subject) != []
  {
    if i < |rows| - 1 {
      TotalsOfPresent(rows[..|rows| - 1], subject, i);
    }
  }

  /** `subjectToTotals`: every class row for the term (approved or not) adds its total to
      the list of its subject, in row order. */
  method GroupTotalsBySubject(rows: seq<ScoreRecord>) returns (subjectToTotals: map<string, seq<int>>)
    ensures forall s :: s in subjectToTotals <==> exists i :: 0 <= i < |rows| && rows[i].subject == s
    ensures forall s :: s in subjectToTotals ==> subjectToTotals[s] == TotalsOf(rows, s)
  {
    subjectToTotals := map[];
    var i := 0;
    while i < |rows|
      invariant 0 <= i <= |rows|
      invariant forall s :: s in subjectToTotals <==> exists j :: 0 <= j < i && rows[j].subject == s
      invariant forall s :: s in subjectToTotals ==> subjectToTotals[s] == TotalsOf(rows[..i], s)
    {
      var r := rows[i];
      var total := SubjectTotal(r);
      assert rows[..i + 1][..i] == rows[..i];
      if r.subject !in subjectToTotals {
        subjectToTotals := subjectToTotals[r.subject := []];
        assert forall j :: 0 <= j < i ==> rows[j].subject != r.subject;
        NoTotalsOfAbsent(rows[..i], r.subject);
      }
      subjectToTotals := subjectToTotals[r.subject := subjectToTotals[r.subject] + [total]];
      i := i + 1;
    }
    assert rows[..i] == rows;
  }

  /** A subject without a row has no totals. */
  lemma {:induction false} NoTotalsOfAbsent(rows: seq<ScoreRecord>, subject: string)
    requires forall j :: 0 <= j < |rows| ==> rows[j].subject != subject
    ensures TotalsOf(rows, subject) == []
  {
    if rows != [] {
      NoTotalsOfAbsent(rows[..|rows| - 1], subject);
    }
  }

  /** Highest, lowest and average total of one subject in the class. */
  datatype SubjectStat = SubjectStat(highest: int, lowest: int, average: real)

  /** The class statistics printed for a subject (`arr = subjectToTotals[subject] || []`):
      none when the subject has no class rows; otherwise the largest and smallest total
      and the mean total to two places, which lies between them. */
  function SubjectStats(subjectToTotals: map<string, seq<int>>, subject: string): (st: Option<SubjectStat>)
    ensures st.Some? <==> subject in subjectToTotals && subjectToTotals[subject] != []
    ensures st.Some? ==>
      var arr := subjectToTotals[subject];
      && st.value.highest in arr && st.value.lowest in arr
      && (forall i :: 0 <= i < |arr| ==> st.value.lowest <= arr[i] <= st.value.highest)
      && st.value.lowest as real <= st.value.average <= st.value.highest as real
    ensures st.Some? ==>
      var arr := subjectToTotals[subject];
      var mean := Sum(arr) as real / |arr| as real;
      && st.value.average == ToFixed(mean, 100)
      && mean - 0.005 <= st.value.average <= mean + 0.005
  {
    var arr := if subject in subjectToTotals then subjectToTotals[subject] else [];
    if |arr| > 0 then
      var mean := Sum(arr) as real / |arr| as real;
      MeanWithinRange(arr);
      ToFixedMonotone(Min(arr) as real, mean, 100);
      ToFixedMonotone(mean, Max(arr) as real, 100);
      ToFixedWhole(Min(arr), 100);
      ToFixedWhole(Max(arr), 100);
      Some(SubjectStat(Max(arr), Min(arr), ToFixed(mean, 100)))
    else None
  }

  /** The position of the last row of a subject, -1 when it has none. */
  function LastIndexOf(rows: seq<ScoreRecord>, subject: string): (k: int)
    ensures -1 <= k < |rows|
    ensures k >= 0 ==> rows[k].subject == subject
    ensures forall j :: k < j < |rows| ==> rows[j].subject != subject
  {
    if rows == [] then -1
    else if rows[|rows| - 1].subject == subject then |rows| - 1
    else LastIndexOf(rows[..|rows| - 1], subject)
  }

  /** `prev1Map`/`prev2Map`: subject to `ca1 + ca2 + score` of an earlier term's rows; when a
      subject repeats, the later row overwrites the earlier one, so each subject maps to the
      total of its last row. */
  function TermTotals(rows: seq<ScoreRecord>): (m: map<string, int>)
    ensures forall s :: s in m <==> LastIndexOf(rows, s) >= 0
    ensures forall s :: s in m ==> m[s] == SubjectTotal(rows[LastIndexOf(rows, s)])
  {
    if rows == [] then map[]
    else
      var n := |rows| - 1;
      TermTotals(rows[..n])[rows[n].subject := SubjectTotal(rows[n])]
  }

  /** The earlier-term totals the report looks up: the first term's only from the second
      term on, the second term's only in the third term. */
  function PreviousTotals(termIndex: int, firstTermRows: seq<ScoreRecord>, secondTermRows: seq<ScoreRecord>)
    : (prev: (map<string, int>, map<string, int>))
    ensures termIndex <= 0 ==> prev.0 == map[]
    ensures termIndex <= 1 ==> prev.1 == map[]
    ensures termIndex > 0 ==> prev.0 == TermTotals(firstTermRows)
    ensures termIndex > 1 ==> prev.1 == TermTotals(secondTermRows)
  {
    (if termIndex > 0 then TermTotals(firstTermRows) else map[],
     if termIndex > 1 then TermTotals(secondTermRows) else map[])
  }

  /** Look a subject up in an earlier term's totals (`undefined` when absent). */
  function Lookup(m: map<string, int>, subject: string): Option<int>
  {
    if subject in m then Some(m[subject]) else None
  }

  /** This term's total for a row as the cumulative column uses it: with the exam when
      the report has exam columns, the CA total alone otherwise. */
  function CurrentTotal(r: ScoreRecord, hasExam: bool): int
  {
    if hasExam then CaTotal(r) + NumOr0(r.score) else CaTotal(r)
  }

  /** On the report's own rows the two branches agree: without exam columns no row has an
      exam score, so the CA total is the whole subject total. */
  lemma CurrentTotalIsSubjectTotal(results: seq<ScoreRecord>, i: int)
    requires 0 <= i < |results|
    ensures CurrentTotal(results[i], HasExam(results)) == SubjectTotal(results[i])
  {
    if !HasExam(results) {
      assert !HasExamScore(results[i]);
    }
  }

  /** `cumulativeTerms`: the available earlier totals followed by this term's, for the
      second and third term; nothing for the first or an unknown term. */
  function CumulativeTerms(termIndex: int, first: Option<int>, second: Option<int>, current: int): seq<int>
  {
    if termIndex == 1 then
      (if first.Some? then [first.value] else []) + [current]
    else if termIndex == 2 then
      (if first.Some? then [first.value] else []) + (if second.Some? then [second.value] else []) + [current]
    else []
  }

  /** The cumulative average cell: the rounded mean of the available earlier totals and this
      term's. It is absent exactly in the first term and for an unknown term, and it always
      lies between the smallest and the largest of the totals it averages. */
  function Cumulative(termIndex: int, first: Option<int>, second: Option<int>, current: int): (c: Option<int>)
    ensures c.Some? <==> termIndex == 1 || termIndex == 2
    ensures c.Some? ==>
      var terms := CumulativeTerms(termIndex, first, second, current);
      terms != [] && current in terms && Min(terms) <= c.value <= Max(terms)
  {
    var terms := CumulativeTerms(termIndex, first, second, current);
    if |terms| > 0 then
      RoundedMeanWithinRange(terms);
      Some(Round(Sum(terms) as real / |terms| as real))
    else None
  }

  /** Third term with all three totals: the rounded mean of the three. */
  lemma CumulativeOfThreeTerms(first: int, second: int, current: int)
    ensures Cumulative(2, Some(first), Some(second), current)
      == Some(Round((first + second + current) as real / 3.0))
  {
    var terms := [first, second, current];
    assert CumulativeTerms(2, Some(first), Some(second), current) == terms;
    assert terms[..2] == [first, second];
    assert [first, second][..1] == [first];
    assert [first][..0] == [];
    assert Sum([first]) == first;
    assert Sum([first, second]) == first + second;
    assert Sum(terms) == first + second + current;
  }

  /** The figures of one subject row of the main table. */
  datatype ReportRow = ReportRow(
    subject: string,
    ca1: Cell,
    ca2: Cell,
    caTotal: int,
    exam: Option<(Cell, int)>,   // exam score and 100% total, only with exam columns
    grade: Option<string>,       // only with exam columns
    remark: string,
    prev1: Option<int>,
    prev2: Option<int>,
    cumulative: Option<int>,
    stats: Option<SubjectStat>)

  /** The cells of the row for result r. */
  function RowCells(r: ScoreRecord, hasExam: bool, termIndex: int,
                    prev1: map<string, int>, prev2: map<string, int>,
                    subjectToTotals: map<string, seq<int>>): (row: ReportRow)
    ensures row.subject == r.subject && row.remark == r.remark
    ensures row.ca1 == r.ca1 && row.ca2 == r.ca2 && row.caTotal == CaTotal(r)
    ensures row.exam.Some? <==> hasExam
    ensures hasExam ==> row.exam.value == (r.score, SubjectTotal(r))
    ensures row.grade == (if hasExam then Some(r.grade) else None)
    ensures row.prev1.Some? <==> termIndex >= 1 && r.subject in prev1
    ensures row.prev1.Some? ==> row.prev1.value == prev1[r.subject]
    ensures row.prev2.Some? <==> termIndex >= 2 && r.subject in prev2
    ensures row.prev2.Some? ==> row.prev2.value == prev2[r.subject]
    ensures row.cumulative == Cumulative(termIndex, Lookup(prev1, r.subject), Lookup(prev2, r.subject), CurrentTotal(r, hasExam))
    ensures row.cumulative.Some? <==> termIndex == 1 || termIndex == 2
    ensures row.stats == SubjectStats(subjectToTotals, r.subject)
    ensures row.stats.Some? <==> r.subject in subjectToTotals && subjectToTotals[r.subject] != []
  {
    var first := Lookup(prev1, r.subject);
    var second := Lookup(prev2, r.subject);
    ReportRow(
      r.subject, r.ca1, r.ca2, CaTotal(r),
      if hasExam then Some((r.score, CaTotal(r) + NumOr0(r.score))) else None,
      if hasExam then Some(r.grade) else None,
      r.remark,
      if termIndex >= 1 then first else None,
      if termIndex >= 2 then second else None,
      Cumulative(termIndex, first, second, CurrentTotal(r, hasExam)),
      SubjectStats(subjectToTotals, r.subject))
  }
}
