/**
  Score records as the report card and the dashboards see them, and the computations
  on them that the backend route and the three dashboards share: a record's subject
  total, a student's grand total, whether any exam score is present, and grouping a
  result list by student.
 */
module Records {
  import opened Numbers
  import Text

  /** A value that may be absent: `undefined`, or a request that is not sent. */
  datatype Option<T> = None | Some(value: T)

  /** A score field as JavaScript holds it: `null`/`undefined`, the empty string, a
      non-empty string of whitespace only, a number (or a string holding one), or text
      that is not a number. */
  datatype Cell = Missing | Empty | Spaces | Num(v: int) | Junk

  /** `Number(x) || 0`: the number, with everything that is not a non-zero number read as 0. */
  function NumOr0(c: Cell): (n: int)
    ensures n != 0 ==> c == Num(n)
  {
    if c.Num? then c.v else 0
  }

  /** Whether a field is blank for the exam test: `null`, `undefined`, or empty after `trim`. */
  predicate IsBlank(c: Cell)
  {
    c.Missing? || c.Empty? || c.Spaces?
  }

  /** One row of the `results` table. */
  datatype ScoreRecord = ScoreRecord(
    studentId: string,
    subject: string,
    className: string,
    term: string,
    session: string,
    ca1: Cell,
    ca2: Cell,
    score: Cell,
    grade: string,
    remark: string,
    approved: bool)

  /** The two continuous-assessment marks of a record, absent parts counted as 0. */
  function CaTotal(r: ScoreRecord): int
  {
    NumOr0(r.ca1) + NumOr0(r.ca2)
  }

  /** `ca1 + ca2 + score` of a record, absent or non-numeric parts counted as 0. */
  function SubjectTotal(r: ScoreRecord): int
  {
    CaTotal(r) + NumOr0(r.score)
  }

  /** A blank or absent part counts exactly like an explicit 0. */
  lemma BlankCountsAsZero(r: ScoreRecord, c: Cell)
    requires IsBlank(c) || c.Junk?
    ensures SubjectTotal(r.(ca1 := c)) == SubjectTotal(r.(ca1 := Num(0)))
    ensures SubjectTotal(r.(ca2 := c)) == SubjectTotal(r.(ca2 := Num(0)))
    ensures SubjectTotal(r.(score := c)) == SubjectTotal(r.(score := Num(0)))
  {
  }

  /** `results.reduce((sum, r) => sum + ca1 + ca2 + exam, 0)`. */
  function GrandTotal(rs: seq<ScoreRecord>): int
  {
    if rs == [] then 0 else GrandTotal(rs[..|rs| - 1]) + SubjectTotal(rs[|rs| - 1])
  }

  /** The grand total is the sum of the subject totals of the records. */
  lemma {:induction false} GrandTotalIsSum(rs: seq<ScoreRecord>)
    ensures GrandTotal(rs) == Sum(SubjectTotals(rs))
  {
    if rs != [] {
      var n := |rs| - 1;
      GrandTotalIsSum(rs[..n]);
      assert SubjectTotals(rs)[..n] == SubjectTotals(rs[..n]);
    }
  }

  /** The subject total of each record, in order. */
  function SubjectTotals(rs: seq<ScoreRecord>): (ts: seq<int>)
    ensures |ts| == |rs|
    ensures forall i :: 0 <= i < |rs| ==> ts[i] == SubjectTotal(rs[i])
  {
    seq(|rs|, i requires 0 <= i < |rs| => SubjectTotal(rs[i]))
  }

  /** The same fold over the CA marks alone. */
  function CaGrandTotal(rs: seq<ScoreRecord>): int
  {
    if rs == [] then 0 else CaGrandTotal(rs[..|rs| - 1]) + CaTotal(rs[|rs| - 1])
  }

  /** The grand total of a concatenation is the sum of the grand totals. */
  lemma {:induction false} GrandTotalAppend(a: seq<ScoreRecord>, b: seq<ScoreRecord>)
    ensures GrandTotal(a + b) == GrandTotal(a) + GrandTotal(b)
  {
    if b == [] {
      assert a + b == a;
    } else {
      assert (a + b)[..|a + b| - 1] == a + b[..|b| - 1];
      GrandTotalAppend(a, b[..|b| - 1]);
    }
  }

  /** The grand total does not depend on the order the rows arrive in. */
  lemma {:induction false} GrandTotalOrderFree(a: seq<ScoreRecord>, b: seq<ScoreRecord>)
    requires multiset(a) == multiset(b)
    ensures GrandTotal(a) == GrandTotal(b)
    decreases |a|
  {
    if a == [] {
      assert |b| == |multiset(b)| == 0;
    } else {
      var n := |a| - 1;
      var x := a[n];
      assert a == a[..n] + [x];
      assert x in multiset(b);
      var k :| 0 <= k < |b| && b[k] == x;
      var rest := b[..k] + b[k + 1..];
      assert b == b[..k] + [x] + b[k + 1..];
      assert multiset(b) == multiset(rest) + multiset{x};
      assert multiset(a) == multiset(a[..n]) + multiset{x};
      assert multiset(a[..n]) == multiset(a) - multiset{x};
      assert multiset(rest) == multiset(b) - multiset{x};
      GrandTotalOrderFree(a[..n], rest);
      GrandTotalAppend(b[..k] + [x], b[k + 1..]);
      GrandTotalAppend(b[..k], [x]);
      GrandTotalAppend(b[..k], b[k + 1..]);
      assert GrandTotal([x]) == SubjectTotal(x) by {
        assert [x][..0] == [];
      }
    }
  }

  /** Whether a record's exam score counts as present: not `null`/`undefined` and not blank
      after `trim` (text that is not a number counts as present). */
  predicate HasExamScore(r: ScoreRecord): (b: bool)
    ensures b <==> r.score.Num? || r.score.Junk?
  {
    !IsBlank(r.score)
  }

  /** `results.some(r => r.score !== null && r.score !== undefined && String(r.score).trim() !== '')`. */
  predicate HasExam(rs: seq<ScoreRecord>): (b: bool)
    ensures b <==> exists i :: 0 <= i < |rs| && (rs[i].score.Num? || rs[i].score.Junk?)
    ensures !b ==> forall i :: 0 <= i < |rs| ==> SubjectTotal(rs[i]) == CaTotal(rs[i])
  {
    exists i | 0 <= i < |rs| :: HasExamScore(rs[i])
  }

  /** When no record has an exam score, the exam parts add nothing: the grand total is the
      total of the CA marks, which is why dropping the exam columns loses no figure. */
  lemma {:induction false} NoExamMeansCaOnly(rs: seq<ScoreRecord>)
    requires !HasExam(rs)
    ensures GrandTotal(rs) == CaGrandTotal(rs)
  {
    if rs != [] {
      var init := rs[..|rs| - 1];
      assert !HasExamScore(rs[|rs| - 1]);
      assert !HasExam(init) by {
        forall i | 0 <= i < |init|
          ensures !HasExamScore(init[i])
        {
          assert init[i] == rs[i];
        }
      }
      NoExamMeansCaOnly(init);
    }
  }

  /** The results of one student, as collected under one key when grouping. */
  datatype Group = Group(key: string, members: seq<ScoreRecord>)

  /** The student ids of a result list, in order. */
  function StudentIds(rs: seq<ScoreRecord>): (ids: seq<string>)
    ensures |ids| == |rs|
    ensures forall i :: 0 <= i < |rs| ==> ids[i] == rs[i].studentId
  {
    if rs == [] then [] else StudentIds(rs[..|rs| - 1]) + [rs[|rs| - 1].studentId]
  }

  /** The keys of a list of groups, in order. */
  function Keys(gs: seq<Group>): (ks: seq<string>)
    ensures |ks| == |gs|
    ensures forall i :: 0 <= i < |gs| ==> ks[i] == gs[i].key
  {
    if gs == [] then [] else Keys(gs[..|gs| - 1]) + [gs[|gs| - 1].key]
  }

  /** The results of the student `id`, in input order. */
  function OfStudent(rs: seq<ScoreRecord>, id: string): seq<ScoreRecord>
  {
    if rs == [] then []
    else if rs[|rs| - 1].studentId == id then OfStudent(rs[..|rs| - 1], id) + [rs[|rs| - 1]]
    else OfStudent(rs[..|rs| - 1], id)
  }

  /** The position of the group keyed `id`, or -1 when there is none. */
  function GroupIndex(gs: seq<Group>, id: string): (k: int)
    ensures -1 <= k < |gs|
    ensures k >= 0 ==> gs[k].key == id
    ensures k < 0 ==> id !in Keys(gs)
  {
    if gs == [] then -1
    else if gs[|gs| - 1].key == id then |gs| - 1
    else GroupIndex(gs[..|gs| - 1], id)
  }

  /** One step of `reduce((acc, r) => { (acc[r.student_id] ||= []).push(r); return acc }, {})`. */
  function AddToGroup(gs: seq<Group>, r: ScoreRecord): seq<Group>
  {
    var k := GroupIndex(gs, r.studentId);
    if k < 0 then gs + [Group(r.studentId, [r])]
    else gs[k := gs[k].(members := gs[k].members + [r])]
  }

  /** Results grouped by `student_id`, groups in order of each student's first result. */
  function GroupByStudent(rs: seq<ScoreRecord>): (gs: seq<Group>)
    ensures |gs| <= |rs|
  {
    if rs == [] then [] else AddToGroup(GroupByStudent(rs[..|rs| - 1]), rs[|rs| - 1])
  }

  /** Grouping is exact: there is one group per distinct student id, in order of first
      occurrence, and each group holds exactly that student's results in input order, so
      every result lands in exactly one group. */
  lemma {:induction false} GroupByStudentCorrect(rs: seq<ScoreRecord>)
    ensures Keys(GroupByStudent(rs)) == Text.Dedup(StudentIds(rs))
    ensures forall i :: 0 <= i < |GroupByStudent(rs)| ==>
      GroupByStudent(rs)[i].members == OfStudent(rs, GroupByStudent(rs)[i].key)
  {
    if rs != [] {
      var n := |rs| - 1;
      var init, r := rs[..n], rs[n];
      var gs := GroupByStudent(init);
      GroupByStudentCorrect(init);
      assert StudentIds(rs) == StudentIds(init) + [r.studentId];
      assert StudentIds(rs)[..n] == StudentIds(init);
      var out := GroupByStudent(rs);
      assert out == AddToGroup(gs, r);
      var k := GroupIndex(gs, r.studentId);
      if k < 0 {
        assert r.studentId !in StudentIds(init);
        NoneOfStudent(init, r.studentId);
        assert Keys(out) == Keys(gs) + [r.studentId] by {
          assert Keys(out)[..|gs|] == Keys(gs);
        }
      } else {
        assert Keys(out) == Keys(gs);
        assert r.studentId in StudentIds(init);
      }
    }
  }

  /** A student with no id in the list has no results in it. */
  lemma {:induction false} NoneOfStudent(rs: seq<ScoreRecord>, id: string)
    requires id !in StudentIds(rs)
    ensures OfStudent(rs, id) == []
  {
    if rs != [] {
      assert StudentIds(rs) == StudentIds(rs[..|rs| - 1]) + [rs[|rs| - 1].studentId];
      NoneOfStudent(rs[..|rs| - 1], id);
    }
  }
}
