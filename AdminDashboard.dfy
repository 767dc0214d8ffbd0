/**
  The list logic of the administrator's dashboard: the result history grouped by
  student, the class checkboxes of a teacher, the pending-approval list with its
  selection and its `student_id||term||session` keys, the total shown in a history row,
  and the zero fill-in of a manual result entry. Requests to the server become boolean
  outcome parameters; everything the page renders is left to the view.
 */
module AdminDashboard {
  import opened Records
  import Text


  // ---------------------------------------------------------------------------------
  // Result history grouped by student
  // ---------------------------------------------------------------------------------

  /** An entry of `grouped`: the fields of the student's first result, and all of that
      student's results. */
  datatype HistoryEntry = HistoryEntry(first: ScoreRecord, results: seq<ScoreRecord>)

  /** An element of `historyStudents`: an entry with its list of classes. */
  datatype HistoryStudent = HistoryStudent(first: ScoreRecord, results: seq<ScoreRecord>, classes: string)

  /** The class of every result, in order. */
  function ClassNames(rs: seq<ScoreRecord>): (cs: seq<string>)
    ensures |cs| == |rs|
    ensures forall i :: 0 <= i < |rs| ==> cs[i] == rs[i].className
  {
    if rs == [] then [] else ClassNames(rs[..|rs| - 1]) + [rs[|rs| - 1].className]
  }

  /** `Array.from(new Set(results.map(r => r.class))).join(', ')`. */
  function ClassList(rs: seq<ScoreRecord>): (list: string)
    ensures rs == [] ==> list == ""
  {
    Text.Join(Text.Dedup(ClassNames(rs)), ", ")
  }

  /** A student whose results are all in one class is listed with that class alone. */
  lemma OneClassListed(rs: seq<ScoreRecord>)
    requires rs != [] && forall i :: 0 <= i < |rs| ==> rs[i].className == rs[0].className
    ensures ClassList(rs) == rs[0].className
  {
    DedupConstant(ClassNames(rs), rs[0].className);
  }

  /** A non-empty list of one repeated class has that class as its only distinct member. */
  lemma {:induction false} DedupConstant(xs: seq<string>, c: string)
    requires xs != [] && forall i :: 0 <= i < |xs| ==> xs[i] == c
    ensures Text.Dedup(xs) == [c]
  {
    var n := |xs| - 1;
    if n > 0 {
      DedupConstant(xs[..n], c);
    } else {
      assert xs[..n] == [];
    }
  }

  /** Taking one more result into the list adds it to its own student's results only. */
  lemma OfStudentSnoc(rs: seq<ScoreRecord>, r: ScoreRecord, id: string)
    ensures OfStudent(rs + [r], id) == OfStudent(rs, id) + (if r.studentId == id then [r] else [])
  {
    assert (rs + [r])[..|rs|] == rs;
  }

  /** One more id adds itself to the distinct ids unless it is already there. */
  lemma DedupSnoc(xs: seq<string>, x: string)
    ensures Text.Dedup(xs + [x]) == if x in Text.Dedup(xs) then Text.Dedup(xs) else Text.Dedup(xs) + [x]
  {
    assert (xs + [x])[..|xs|] == xs;
  }

  /** `grouped` and the order of its keys hold the results rs: one entry per distinct id,
      in order of first appearance, each with the fields of that student's first result
      and all of that student's results. */
  ghost predicate Collects(grouped: map<string, HistoryEntry>, order: seq<string>, rs: seq<ScoreRecord>)
  {
    && order == Text.Dedup(StudentIds(rs))
    && SameKeys(grouped, order)
    && HoldsResults(grouped, rs)
  }

  /** The keys of `grouped` are the ids listed in `order`. */
  ghost predicate SameKeys(grouped: map<string, HistoryEntry>, order: seq<string>)
  {
    forall k :: k in grouped <==> k in order
  }

  /** Each entry holds exactly its student's results and starts with the first of them. */
  ghost predicate HoldsResults(grouped: map<string, HistoryEntry>, rs: seq<ScoreRecord>)
  {
    forall k :: k in grouped ==>
      && grouped[k].results == OfStudent(rs, k)
      && grouped[k].results != []
      && grouped[k].first == grouped[k].results[0]
  }

  /** The entry a result is added to: the student's entry so far, or a fresh one that takes
      its fields from this result. */
  function EntryFor(grouped: map<string, HistoryEntry>, r: ScoreRecord): HistoryEntry
  {
    if r.studentId in grouped then grouped[r.studentId] else HistoryEntry(r, [])
  }

  /** `grouped` after one more result is appended to its student's entry. */
  function AddResult(grouped: map<string, HistoryEntry>, r: ScoreRecord): (g: map<string, HistoryEntry>)
    ensures forall k :: k in g <==> k in grouped || k == r.studentId
  {
    var e := EntryFor(grouped, r);
    grouped[r.studentId := e.(results := e.results + [r])]
  }

  /** One step of the `forEach` keeps `grouped` holding the results seen so far. */
  lemma CollectsStep(grouped: map<string, HistoryEntry>, order: seq<string>, results: seq<ScoreRecord>, i: nat,
                     grouped': map<string, HistoryEntry>, order': seq<string>)
    requires i < |results| && Collects(grouped, order, results[..i])
    requires grouped' == AddResult(grouped, results[i])
    requires order' == if results[i].studentId in grouped then order else order + [results[i].studentId]
    ensures Collects(grouped', order', results[..i + 1])
  {
    var rs, r := results[..i], results[i];
    assert results[..i + 1] == rs + [r];
    CollectsSnoc(grouped, order, rs, r);
  }

  /** The same step, stated on the results seen so far followed by one more. */
  lemma CollectsSnoc(grouped: map<string, HistoryEntry>, order: seq<string>, rs: seq<ScoreRecord>, r: ScoreRecord)
    requires Collects(grouped, order, rs)
    ensures Collects(AddResult(grouped, r), if r.studentId in order then order else order + [r.studentId], rs + [r])
  {
    OrderStep(order, rs, r);
    KeysStep(grouped, order, r);
    assert r.studentId !in grouped ==> r.studentId !in StudentIds(rs);
    EntriesStep(grouped, rs, r);
  }

  /** Adding a result adds its id to the keys and to their order alike. */
  lemma KeysStep(grouped: map<string, HistoryEntry>, order: seq<string>, r: ScoreRecord)
    requires SameKeys(grouped, order)
    ensures SameKeys(AddResult(grouped, r), if r.studentId in order then order else order + [r.studentId])
  {
  }

  /** Before the first result, `grouped` and its order are empty. */
  lemma CollectsNothing(results: seq<ScoreRecord>)
    ensures Collects(map[], [], results[..0])
  {
    assert results[..0] == [];
  }

  /** The distinct ids grow by the new id exactly when it was not there yet. */
  lemma OrderStep(order: seq<string>, rs: seq<ScoreRecord>, r: ScoreRecord)
    requires order == Text.Dedup(StudentIds(rs))
    ensures (if r.studentId in order then order else order + [r.studentId]) == Text.Dedup(StudentIds(rs + [r]))
  {
    assert StudentIds(rs + [r]) == StudentIds(rs) + [r.studentId] by {
      assert (rs + [r])[..|rs|] == rs;
    }
    DedupSnoc(StudentIds(rs), r.studentId);
  }

  /** Every entry still holds exactly its student's results after one more result. */
  lemma EntriesStep(grouped: map<string, HistoryEntry>, rs: seq<ScoreRecord>, r: ScoreRecord)
    requires HoldsResults(grouped, rs)
    requires r.studentId !in grouped ==> r.studentId !in StudentIds(rs)
    ensures HoldsResults(AddResult(grouped, r), rs + [r])
  {
    var g := AddResult(grouped, r);
    if r.studentId !in grouped {
      NoneOfStudent(rs, r.studentId);
    }
    forall k | k in g
      ensures g[k].results == OfStudent(rs + [r], k)
    {
      OfStudentSnoc(rs, r, k);
      if k != r.studentId {
        assert g[k] == grouped[k];
      }
    }
  }

  /** The `forEach` that fills `grouped`, followed by `Object.values(grouped).map(...)`:
      one entry per distinct student id in order of first appearance, holding the fields
      of that student's first result, all of that student's results in input order, and
      the distinct classes of those results. */
  method GroupHistory(results: seq<ScoreRecord>) returns (students: seq<HistoryStudent>)
    ensures |students| == |Text.Dedup(StudentIds(results))|
    ensures forall i :: 0 <= i < |students| ==>
      Summarises(students[i], results, Text.Dedup(StudentIds(results))[i])
  {
    var grouped, order := CollectHistory(results);
    students := Summaries(grouped, order, results);
  }

  /** `Object.values(grouped).map(...)`: one history line per key, in key order. */
  method Summaries(grouped: map<string, HistoryEntry>, order: seq<string>, ghost rs: seq<ScoreRecord>)
    returns (students: seq<HistoryStudent>)
    requires SameKeys(grouped, order) && HoldsResults(grouped, rs)
    ensures |students| == |order|
    ensures forall i :: 0 <= i < |order| ==> Summarises(students[i], rs, order[i])
  {
    students := [];
    var j := 0;
    while j < |order|
      invariant 0 <= j <= |order|
      invariant |students| == j
      invariant forall m :: 0 <= m < j ==> Summarises(students[m], rs, order[m])
    {
      EntrySummarises(grouped, order, rs, j);
      var e := grouped[order[j]];
      var line := HistoryStudent(e.first, e.results, ClassList(e.results));
      ghost var prev := students;
      students := students + [line];
      forall m | 0 <= m <= j
        ensures Summarises(students[m], rs, order[m])
      {
        if m < j {
          assert students[m] == prev[m];
        }
      }
      j := j + 1;
    }
  }

  /** The entry of the j-th key gives that student's history line. */
  lemma EntrySummarises(grouped: map<string, HistoryEntry>, order: seq<string>, rs: seq<ScoreRecord>, j: nat)
    requires SameKeys(grouped, order) && HoldsResults(grouped, rs) && j < |order|
    ensures order[j] in grouped
    ensures var e := grouped[order[j]];
      Summarises(HistoryStudent(e.first, e.results, ClassList(e.results)), rs, order[j])
  {
    assert order[j] in order;
  }

  /** A history line for student id: all of that student's results in input order, the
      fields of the first of them, and the distinct classes of those results. */
  ghost predicate Summarises(s: HistoryStudent, rs: seq<ScoreRecord>, id: string)
  {
    && s.results == OfStudent(rs, id)
    && s.results != []
    && s.first == s.results[0]
    && s.classes == ClassList(OfStudent(rs, id))
  }

  /** The `forEach` that fills `grouped`, with the order in which its keys were added. */
  method CollectHistory(results: seq<ScoreRecord>) returns (grouped: map<string, HistoryEntry>, order: seq<string>)
    ensures Collects(grouped, order, results)
  {
    grouped, order := map[], [];
    var i := 0;
    CollectsNothing(results);
    while i < |results|
      invariant 0 <= i <= |results|
      invariant Collects(grouped, order, results[..i])
    {
      var r := results[i];
      ghost var before, orderBefore := grouped, order;
      if r.studentId !in grouped {
        order := order + [r.studentId];
      }
      var entry := if r.studentId in grouped then grouped[r.studentId] else HistoryEntry(r, []);
      grouped := grouped[r.studentId := entry.(results := entry.results + [r])];
      CollectsStep(before, orderBefore, results, i, grouped, order);
      i := i + 1;
    }
    assert results[..i] == results;
  }

  /** A result is in a student's entry exactly when it is one of the results and carries
      that student's id, so every result lands in one entry and in no other. */
  lemma {:induction false} OfStudentMembers(rs: seq<ScoreRecord>, id: string, x: ScoreRecord)
    ensures x in OfStudent(rs, id) <==> x in rs && x.studentId == id
  {
    if rs != [] {
      var n := |rs| - 1;
      OfStudentMembers(rs[..n], id, x);
      assert rs == rs[..n] + [rs[n]];
      assert x in rs <==> x in rs[..n] || x == rs[n];
    }
  }

  // ---------------------------------------------------------------------------------
  // Checkbox lists
  // ---------------------------------------------------------------------------------

  /** `xs.filter(x => x !== k)`. */
  function Without<T(==,!new)>(xs: seq<T>, k: T): (r: seq<T>)
    ensures forall x :: x in r <==> x in xs && x != k
    ensures |r| <= |xs|
  {
    if xs == [] then []
    else
      var init := Without(xs[..|xs| - 1], k);
      assert forall x :: x in xs <==> x in xs[..|xs| - 1] || x == xs[|xs| - 1];
      if xs[|xs| - 1] == k then init else init + [xs[|xs| - 1]]
  }

  /** `prev.includes(k) ? prev.filter(x => x !== k) : [...prev, k]`: the box of k flips and
      every other box keeps its state. */
  function Toggle<T(==,!new)>(xs: seq<T>, k: T): (r: seq<T>)
    ensures k in r <==> k !in xs
    ensures forall y :: y != k ==> (y in r <==> y in xs)
  {
    if k in xs then Without(xs, k) else xs + [k]
  }

  /** A list without repetitions. */
  predicate Distinct<T(==)>(xs: seq<T>)
  {
    forall i, j :: 0 <= i < j < |xs| ==> xs[i] != xs[j]
  }

  /** Removing a key that is not in the list leaves the list as it is. */
  lemma {:induction false} WithoutAbsent<T(!new)>(xs: seq<T>, k: T)
    requires k !in xs
    ensures Without(xs, k) == xs
  {
    if xs != [] {
      assert k !in xs[..|xs| - 1];
      WithoutAbsent(xs[..|xs| - 1], k);
    }
  }

  /** Ticking a box twice gives back the very same list when it was unticked, and the same
      ticked boxes in any case; a list without repetitions keeps none. */
  lemma ToggleTwice<T(!new)>(xs: seq<T>, k: T)
    ensures forall y :: y in Toggle(Toggle(xs, k), k) <==> y in xs
    ensures k !in xs ==> Toggle(Toggle(xs, k), k) == xs
  {
    if k !in xs {
      WithoutAbsent(xs, k);
      assert Without(xs + [k], k) == Without(xs, k);
    }
  }

  /** Toggling never repeats a key. */
  lemma {:induction false} ToggleKeepsDistinct<T(!new)>(xs: seq<T>, k: T)
    requires Distinct(xs)
    ensures Distinct(Toggle(xs, k))
  {
    if k in xs {
      WithoutKeepsDistinct(xs, k);
    }
  }

  /** Filtering keeps a list free of repetitions. */
  lemma {:induction false} WithoutKeepsDistinct<T(!new)>(xs: seq<T>, k: T)
    requires Distinct(xs)
    ensures Distinct(Without(xs, k))
  {
    if xs != [] {
      var n := |xs| - 1;
      WithoutKeepsDistinct(xs[..n], k);
      assert xs[n] !in xs[..n];
    }
  }

  // ---------------------------------------------------------------------------------
  // Pending approvals and their keys
  // ---------------------------------------------------------------------------------

  /** One line of the pending-approval list: a student's unapproved results of one term. */
  datatype PendingItem = PendingItem(studentId: string, fullname: string, className: string, term: string, session: string)

  /** The key of a pending line, `${student_id}||${term}||${session}`. */
  function PendingKey(p: PendingItem): (key: string)
    ensures |key| == |p.studentId| + |p.term| + |p.session| + 4
  {
    p.studentId + "||" + p.term + "||" + p.session
  }

  /** `const [student_id, term, session] = key.split('||')`: the first three pieces, and
      `undefined` for a piece that is not there. */
  datatype ApprovalItem = ApprovalItem(studentId: Option<string>, term: Option<string>, session: Option<string>)

  /** The i-th piece, or `undefined`. */
  function Piece(parts: seq<string>, i: nat): Option<string>
  {
    if i < |parts| then Some(parts[i]) else None
  }

  /** Decodes a selection key. */
  function DecodeKey(key: string): (item: ApprovalItem)
    ensures item.studentId.Some?
  {
    var parts := Text.Split(key);
    ApprovalItem(Piece(parts, 0), Piece(parts, 1), Piece(parts, 2))
  }

  /** A field that comes back whole from a key: no "||" inside and no '|' at its end,
      which would join the separator after it. */
  ghost predicate KeyField(s: string)
  {
    !Text.HasSeparator(s) && (s == [] || s[|s| - 1] != '|')
  }

  /** Decoding the key of a pending line gives back its student, term and session when
      neither of the first two fields holds "||" or ends in '|', and the session holds
      no "||". */
  lemma KeyRoundTrip(p: PendingItem)
    requires KeyField(p.studentId) && KeyField(p.term) && !Text.HasSeparator(p.session)
    ensures DecodeKey(PendingKey(p)) == ApprovalItem(Some(p.studentId), Some(p.term), Some(p.session))
  {
    var rest := p.term + "||" + p.session;
    var key := PendingKey(p);
    assert key == p.studentId + "||" + rest;
    Text.SplitAfterField(p.studentId, rest);
    Text.SplitAfterField(p.term, p.session);
    Text.SplitWhole(p.session);
    var parts := Text.Split(key);
    assert parts == [p.studentId] + ([p.term] + [p.session]);
    assert DecodeKey(key) == ApprovalItem(Piece(parts, 0), Piece(parts, 1), Piece(parts, 2));
  }

  /** An id ending in '|' does not come back: the key of student `7|` for term `1st` of
      session `2024` decodes as student `7`, term `|1st`. */
  lemma TrailingBarBreaksKey()
    ensures DecodeKey(PendingKey(PendingItem("7|", "", "", "1st", "2024")))
      == ApprovalItem(Some("7"), Some("|1st"), Some("2024"))
  {
    var key := PendingKey(PendingItem("7|", "", "", "1st", "2024"));
    assert key == "7" + "||" + ("|1st" + "||" + "2024");
    assert !Text.HasSeparator("7");
    assert !Text.HasSeparator("|1st") by {
      forall i ensures !Text.SeparatorAt("|1st", i) {
        if 0 <= i < 3 { assert "|1st"[i + 1] != '|'; }
      }
    }
    assert !Text.HasSeparator("2024") by {
      forall i ensures !Text.SeparatorAt("2024", i) {
        if 0 <= i < 4 { assert "2024"[i] != '|'; }
      }
    }
    Text.SplitAfterField("7", "|1st" + "||" + "2024");
    Text.SplitAfterField("|1st", "2024");
    Text.SplitWhole("2024");
    assert Text.Split(key) == ["7", "|1st", "2024"];
  }

  /** Keys whose fields all come back from them. */
  ghost predicate WellKeyed(p: PendingItem)
  {
    KeyField(p.studentId) && KeyField(p.term) && !Text.HasSeparator(p.session)
  }

  /** Two well-keyed lines share a key exactly when they share student, term and session. */
  lemma SameKeySameTerm(p: PendingItem, q: PendingItem)
    requires WellKeyed(p) && WellKeyed(q)
    ensures PendingKey(p) == PendingKey(q) <==>
      p.studentId == q.studentId && p.term == q.term && p.session == q.session
  {
    KeyRoundTrip(p);
    KeyRoundTrip(q);
  }

  /** `toggleSelectAllPending`: a selection as long as the pending list is cleared;
      any other selection becomes the keys of all pending lines. */
  function SelectAll(selected: seq<string>, pending: seq<PendingItem>): (r: seq<string>)
    ensures |selected| == |pending| ==> r == []
    ensures |selected| != |pending| ==>
      |r| == |pending| && forall i :: 0 <= i < |pending| ==> r[i] == PendingKey(pending[i])
  {
    if |selected| == |pending| then [] else seq(|pending|, i requires 0 <= i < |pending| => PendingKey(pending[i]))
  }

  /** Select-all followed by select-all clears the selection. */
  lemma SelectAllTwice(selected: seq<string>, pending: seq<PendingItem>)
    requires |selected| != |pending|
    ensures SelectAll(SelectAll(selected, pending), pending) == []
  {
  }

  /** The select-all box compares lengths only: after a single approval the stale key of
      the approved line is still selected, and select-all then clears the selection
      although the remaining line was never selected. */
  lemma StaleSelectionClears(p: PendingItem, q: PendingItem)
    requires PendingKey(p) != PendingKey(q)
    ensures PendingKey(q) !in [PendingKey(p)]
    ensures SelectAll([PendingKey(p)], [q]) == []
  {
  }

  /** `pendingStudents.filter(s => !(s.student_id === id && s.term === term && s.session === session))`. */
  function Unapproved(pending: seq<PendingItem>, id: string, term: string, session: string): (r: seq<PendingItem>)
    ensures forall p :: p in r <==> p in pending && !(p.studentId == id && p.term == term && p.session == session)
    ensures |r| <= |pending|
  {
    if pending == [] then []
    else
      var n := |pending| - 1;
      var init := Unapproved(pending[..n], id, term, session);
      assert forall p :: p in pending <==> p in pending[..n] || p == pending[n];
      var p := pending[n];
      if p.studentId == id && p.term == term && p.session == session then init else init + [p]
  }

  /** `pendingStudents.filter(s => !selectedPending.includes(key(s)))`. */
  function Remaining(pending: seq<PendingItem>, selected: seq<string>): (r: seq<PendingItem>)
    ensures forall p :: p in r <==> p in pending && PendingKey(p) !in selected
    ensures |r| <= |pending|
  {
    if pending == [] then []
    else
      var n := |pending| - 1;
      var init := Remaining(pending[..n], selected);
      assert forall p :: p in pending <==> p in pending[..n] || p == pending[n];
      if PendingKey(pending[n]) in selected then init else init + [pending[n]]
  }

  /** Approving one line alone and approving a selection of just its key leave the same
      pending list, in the same order, when all keys are well formed. */
  lemma {:induction false} SingleAndBulkAgree(pending: seq<PendingItem>, p: PendingItem)
    requires WellKeyed(p)
    requires forall q :: q in pending ==> WellKeyed(q)
    ensures Remaining(pending, [PendingKey(p)]) == Unapproved(pending, p.studentId, p.term, p.session)
  {
    if pending != [] {
      var n := |pending| - 1;
      assert forall q :: q in pending[..n] ==> q in pending;
      SingleAndBulkAgree(pending[..n], p);
      SameKeySameTerm(pending[n], p);
    }
  }

  /** Approving everything select-all chose empties the pending list. */
  lemma ApproveAllEmpties(selected: seq<string>, pending: seq<PendingItem>)
    requires |selected| != |pending|
    ensures Remaining(pending, SelectAll(selected, pending)) == []
  {
    var all := SelectAll(selected, pending);
    forall i | 0 <= i < |pending|
      ensures PendingKey(pending[i]) in all
    {
      assert all[i] == PendingKey(pending[i]);
    }
    RemainingAllSelected(pending, all);
  }

  /** Nothing remains when every pending result's key is selected. */
  lemma {:induction false} RemainingAllSelected(pending: seq<PendingItem>, selected: seq<string>)
    requires forall i :: 0 <= i < |pending| ==> PendingKey(pending[i]) in selected
    ensures Remaining(pending, selected) == []
  {
    if pending != [] {
      RemainingAllSelected(pending[..|pending| - 1], selected);
    }
  }

  /** The pending-approval panel and the teacher's class checkboxes: the state the handlers
      update. Each request's success or failure is a parameter. */
  class ApprovalPanel {
    var pendingStudents: seq<PendingItem>
    var selectedPending: seq<string>
    var pendingModalOpen: bool
    var assignClasses: seq<int>

    constructor (pending: seq<PendingItem>)
      ensures pendingStudents == pending && selectedPending == [] && !pendingModalOpen && assignClasses == []
    {
      pendingStudents := pending;
      selectedPending := [];
      pendingModalOpen := false;
      assignClasses := [];
    }

    /** `handleClassCheckbox`. */
    method ClassCheckbox(classId: int)
      modifies this
      ensures assignClasses == Toggle(old(assignClasses), classId)
      ensures pendingStudents == old(pendingStudents) && selectedPending == old(selectedPending)
      ensures pendingModalOpen == old(pendingModalOpen)
    {
      assignClasses := Toggle(assignClasses, classId);
    }

    /** `toggleSelectPending`. */
    method ToggleSelectPending(key: string)
      modifies this
      ensures selectedPending == Toggle(old(selectedPending), key)
      ensures pendingStudents == old(pendingStudents) && assignClasses == old(assignClasses)
      ensures pendingModalOpen == old(pendingModalOpen)
    {
      selectedPending := Toggle(selectedPending, key);
    }

    /** `toggleSelectAllPending`. */
    method ToggleSelectAllPending()
      modifies this
      ensures selectedPending == SelectAll(old(selectedPending), pendingStudents)
      ensures pendingStudents == old(pendingStudents) && assignClasses == old(assignClasses)
      ensures pendingModalOpen == old(pendingModalOpen)
    {
      selectedPending := SelectAll(selectedPending, pendingStudents);
    }

    /** `approveResults`: once the server accepts, the matching lines leave the list and the
      modal closes; the selection is left as it was. */
    method ApproveResults(id: string, term: string, session: string, accepted: bool)
      modifies this
      ensures accepted ==> pendingStudents == Unapproved(old(pendingStudents), id, term, session) && !pendingModalOpen
      ensures !accepted ==> pendingStudents == old(pendingStudents) && pendingModalOpen == old(pendingModalOpen)
      ensures selectedPending == old(selectedPending) && assignClasses == old(assignClasses)
    {
      if accepted {
        pendingStudents := Unapproved(pendingStudents, id, term, session);
        pendingModalOpen := false;
      }
    }

    /** `handleApproveSelected`: nothing is sent for an empty selection; otherwise the
      decoded keys are sent, and once the server accepts, the selected lines leave the
      list and the selection is cleared. */
    method ApproveSelected(accepted: bool) returns (items: seq<ApprovalItem>)
      modifies this
      ensures old(selectedPending) == [] ==> items == []
      ensures |items| == |old(selectedPending)|
      ensures forall i :: 0 <= i < |items| ==> items[i] == DecodeKey(old(selectedPending)[i])
      ensures old(selectedPending) != [] && accepted ==>
        pendingStudents == Remaining(old(pendingStudents), old(selectedPending)) && selectedPending == []
      ensures old(selectedPending) == [] || !accepted ==>
        pendingStudents == old(pendingStudents) && selectedPending == old(selectedPending)
      ensures pendingModalOpen == old(pendingModalOpen) && assignClasses == old(assignClasses)
    {
      if selectedPending == [] {
        return [];
      }
      items := [];
      var i := 0;
      while i < |selectedPending|
        invariant 0 <= i <= |selectedPending|
        invariant |items| == i
        invariant forall m :: 0 <= m < i ==> items[m] == DecodeKey(selectedPending[m])
      {
        items := items + [DecodeKey(selectedPending[i])];
        i := i + 1;
      }
      if accepted {
        pendingStudents := Remaining(pendingStudents, selectedPending);
        selectedPending := [];
      }
    }
  }

  // ---------------------------------------------------------------------------------
  // History row total and manual entry
  // ---------------------------------------------------------------------------------

  /** `Number(x || 0)`: absent and empty parts read 0, a blank string reads 0, a number
      itself, and text that is not a number gives `NaN` (None). */
  function NumberOrZero(c: Cell): (n: Option<int>)
    ensures n.None? <==> c.Junk?
    ensures n.Some? ==> n.value == NumOr0(c)
  {
    match c
    case Missing => Some(0)
    case Empty => Some(0)
    case Spaces => Some(0)
    case Num(v) => Some(v)
    case Junk => None
  }

  /** The total column of a history row: the sum of the three parts, or `NaN` (None) when
      one of them is not a number. */
  function HistoryRowTotal(r: ScoreRecord): (t: Option<int>)
    ensures t.None? <==> r.ca1.Junk? || r.ca2.Junk? || r.score.Junk?
    ensures t.Some? ==> t.value == SubjectTotal(r)
  {
    match (NumberOrZero(r.ca1), NumberOrZero(r.ca2), NumberOrZero(r.score))
    case (Some(a), Some(b), Some(c)) => Some(a + b + c)
    case _ => None
  }

  /** The manual-entry form. */
  datatype ManualForm = ManualForm(
    studentId: string, subject: string, score: Cell, grade: string,
    term: string, session: string, className: string, ca1: Cell, ca2: Cell)

  /** `x || 0` on a form field: an absent or empty field becomes the number 0. */
  function OrZero(c: Cell): (r: Cell)
    ensures r != Missing && r != Empty
    ensures NumOr0(r) == NumOr0(c)
  {
    if c.Missing? || c.Empty? then Num(0) else c
  }

  /** `handleFormSubmit`: without a class nothing is sent; otherwise the form is sent with
      absent or empty assessment marks as 0 and every other field as entered. */
  function ManualRequest(form: ManualForm): (sent: Option<ManualForm>)
    ensures sent.None? <==> form.className == ""
    ensures sent.Some? ==> sent.value.ca1 != Missing && sent.value.ca1 != Empty
    ensures sent.Some? ==> sent.value.ca2 != Missing && sent.value.ca2 != Empty
    ensures sent.Some? ==> sent.value.(ca1 := form.ca1, ca2 := form.ca2) == form
  {
    if form.className == "" then None else Some(form.(ca1 := OrZero(form.ca1), ca2 := OrZero(form.ca2)))
  }

  /** The zero fill-in does not change the total the result counts for. */
  lemma ManualFillKeepsTotal(form: ManualForm, r: ScoreRecord)
    requires ManualRequest(form).Some?
    ensures var sent := ManualRequest(form).value;
      SubjectTotal(r.(ca1 := sent.ca1, ca2 := sent.ca2)) == SubjectTotal(r.(ca1 := form.ca1, ca2 := form.ca2))
  {
  }
}
