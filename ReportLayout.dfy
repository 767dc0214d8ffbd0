/**
  The geometry of the report-card PDF on an A4 page (595.28 x 841.89 points): the column
  list of the main table and its x-positions, the group headers above it, the two
  character tables, the rule that stops around the passport box, the placing of the
  subject rows, the page break before the footer, the remark boxes and the grading key.
  Only the numbers handed to the drawing library are modelled, not the drawing itself.
 */
module ReportLayout {
  import opened Numbers
  import opened Records
  import RC = ReportCard

  /** A4 in points, and the frame the report is drawn in. */
  const PageWidth: real := 595.28
  const PageHeight: real := 841.89
  const BorderMargin: int := 20
  const UsableWidth: real := PageWidth - 2.0 * BorderMargin as real

  // ---------------------------------------------------------------- main table columns

  datatype ColumnKey =
    | Subject | Ca1 | Ca2 | CaTotal | Exam | Total | Grade
    | Remark | Prev1 | Prev2 | CumulativeAverage | Highest | Lowest | Average

  datatype Column = Column(key: ColumnKey, width: int)

  /** The keys of a column list, in order. */
  function KeysOf(cols: seq<Column>): (ks: seq<ColumnKey>)
    ensures |ks| == |cols|
    ensures forall i :: 0 <= i < |cols| ==> ks[i] == cols[i].key
  {
    seq(|cols|, i requires 0 <= i < |cols| => cols[i].key)
  }

  const LeadingColumns: seq<Column> :=
    [Column(Subject, 90), Column(Ca1, 22), Column(Ca2, 22), Column(CaTotal, 23)]
  const ExamColumns: seq<Column> :=
    [Column(Exam, 25), Column(Total, 23), Column(Grade, 25)]
  const TrailingColumns: seq<Column> :=
    [Column(Remark, 35), Column(Prev1, 60), Column(Prev2, 50), Column(CumulativeAverage, 60),
     Column(Highest, 40), Column(Lowest, 40), Column(Average, 40)]

  /** `cols`: four leading columns, the exam, 100% total and grade columns only when some
      result has an exam score, then the remark, earlier-term and class-statistics columns. */
  function Columns(hasExam: bool): (cols: seq<Column>)
    ensures |cols| == if hasExam then 14 else 11
    ensures KeysOf(cols)[..4] == [Subject, Ca1, Ca2, CaTotal]
    ensures KeysOf(cols)[|cols| - 7..] == [Remark, Prev1, Prev2, CumulativeAverage, Highest, Lowest, Average]
    ensures hasExam ==> KeysOf(cols)[4..7] == [Exam, Total, Grade]
    ensures forall i :: 0 <= i < |cols| ==> cols[i].width > 0
  {
    LeadingColumns + (if hasExam then ExamColumns else []) + TrailingColumns
  }

  /** The exam, total and grade columns are there exactly when the report has exam scores,
      and no key occurs twice, so a lookup by key is unambiguous. */
  lemma ColumnsByExam(hasExam: bool)
    ensures Exam in KeysOf(Columns(hasExam)) <==> hasExam
    ensures Total in KeysOf(Columns(hasExam)) <==> hasExam
    ensures Grade in KeysOf(Columns(hasExam)) <==> hasExam
    ensures forall i, j :: 0 <= i < j < |Columns(hasExam)| ==> Columns(hasExam)[i].key != Columns(hasExam)[j].key
  {
    var ks := KeysOf(Columns(hasExam));
    if hasExam {
      assert ks == [Subject, Ca1, Ca2, CaTotal, Exam, Total, Grade,
                    Remark, Prev1, Prev2, CumulativeAverage, Highest, Lowest, Average];
    } else {
      assert ks == [Subject, Ca1, Ca2, CaTotal,
                    Remark, Prev1, Prev2, CumulativeAverage, Highest, Lowest, Average];
    }
  }

  /** The sum of the widths of a column list. */
  function WidthSum(cols: seq<Column>): int
  {
    if cols == [] then 0 else WidthSum(cols[..|cols| - 1]) + cols[|cols| - 1].width
  }

  /** The left edge of column i (i = |cols| gives the right edge of the table). */
  function ColumnX(cols: seq<Column>, i: nat): int
    requires i <= |cols|
  {
    BorderMargin + WidthSum(cols[..i])
  }

  /** `colX`: starting from the margin, push the previous position plus the next width.
      Each entry is the margin plus the widths before it; with positive widths the
      positions strictly increase. */
  method ColumnPositions(cols: seq<Column>) returns (colX: seq<int>)
    ensures |colX| == |cols| + 1
    ensures colX[0] == BorderMargin
    ensures forall i :: 0 <= i < |cols| ==> colX[i + 1] == colX[i] + cols[i].width
    ensures forall i :: 0 <= i <= |cols| ==> colX[i] == ColumnX(cols, i)
    ensures (forall i :: 0 <= i < |cols| ==> cols[i].width > 0) ==>
      forall i, j :: 0 <= i < j <= |cols| ==> colX[i] < colX[j]
  {
    colX := [BorderMargin];
    var i := 0;
    while i < |cols|
      invariant 0 <= i <= |cols|
      invariant |colX| == i + 1
      invariant colX[0] == BorderMargin
      invariant forall k :: 0 <= k < i ==> colX[k + 1] == colX[k] + cols[k].width
      invariant forall k :: 0 <= k <= i ==> colX[k] == ColumnX(cols, k)
    {
      assert cols[..i + 1][..i] == cols[..i];
      colX := colX + [colX[i] + cols[i].width];
      i := i + 1;
    }
    if forall k :: 0 <= k < |cols| ==> cols[k].width > 0 {
      forall i, j | 0 <= i < j <= |cols|
        ensures colX[i] < colX[j]
      {
        Increasing(colX, cols, i, j);
      }
    }
  }

  lemma {:induction false} Increasing(colX: seq<int>, cols: seq<Column>, i: int, j: int)
    requires |colX| == |cols| + 1
    requires forall k :: 0 <= k < |cols| ==> colX[k + 1] == colX[k] + cols[k].width && cols[k].width > 0
    requires 0 <= i < j <= |cols|
    ensures colX[i] < colX[j]
    decreases j - i
  {
    if i + 1 < j {
      Increasing(colX, cols, i + 1, j);
    }
  }

  /** The full table is 555 points wide with exam columns and 482 without; both fit inside
      the border (the usable width is 555.28). */
  lemma TableFitsBorder(hasExam: bool)
    ensures ColumnX(Columns(hasExam), |Columns(hasExam)|) == BorderMargin + (if hasExam then 555 else 482)
    ensures ColumnX(Columns(hasExam), |Columns(hasExam)|) as real <= BorderMargin as real + UsableWidth
  {
    var cols := Columns(hasExam);
    assert cols[..|cols|] == cols;
    WidthSumAppend(LeadingColumns, if hasExam then ExamColumns else []);
    WidthSumAppend(LeadingColumns + (if hasExam then ExamColumns else []), TrailingColumns);
    assert WidthSum(LeadingColumns) == 157 by { WidthSumOf4(LeadingColumns); }
    assert WidthSum(ExamColumns) == 73 by { WidthSumOf3(ExamColumns); }
    assert WidthSum(TrailingColumns) == 325 by {
      WidthSumAppend(TrailingColumns[..4], TrailingColumns[4..]);
      assert TrailingColumns == TrailingColumns[..4] + TrailingColumns[4..];
      WidthSumOf4(TrailingColumns[..4]);
      WidthSumOf3(TrailingColumns[4..]);
    }
  }

  lemma {:induction false} WidthSumAppend(a: seq<Column>, b: seq<Column>)
    ensures WidthSum(a + b) == WidthSum(a) + WidthSum(b)
  {
    if b == [] {
      assert a + b == a;
    } else {
      assert (a + b)[..|a + b| - 1] == a + b[..|b| - 1];
      WidthSumAppend(a, b[..|b| - 1]);
    }
  }

  lemma WidthSumOf3(cs: seq<Column>)
    requires |cs| == 3
    ensures WidthSum(cs) == cs[0].width + cs[1].width + cs[2].width
  {
    assert cs[..3] == cs;
    assert cs[..2][..1] == cs[..1];
    assert cs[..1][..0] == [];
    assert WidthSum(cs[..1]) == cs[0].width;
    assert WidthSum(cs[..2]) == cs[0].width + cs[1].width;
  }

  lemma WidthSumOf4(cs: seq<Column>)
    requires |cs| == 4
    ensures WidthSum(cs) == cs[0].width + cs[1].width + cs[2].width + cs[3].width
  {
    assert cs[..4] == cs;
    WidthSumOf3(cs[..3]);
  }

  /** `cols.findIndex(c => c.key === key)`: the first position of the key, -1 when absent. */
  function IndexOf(cols: seq<Column>, key: ColumnKey): (k: int)
    ensures -1 <= k < |cols|
    ensures k >= 0 ==> cols[k].key == key
    ensures forall i :: 0 <= i < |cols| && (k < 0 || i < k) ==> cols[i].key != key
  {
    if cols == [] then -1
    else if cols[0].key == key then 0
    else
      var k := IndexOf(cols[1..], key);
      if k < 0 then -1 else k + 1
  }

  /** The grand-total box runs from `colX[0]` to the fixed `colX[8]`: with exam columns that
      is where the first-term column starts, without them where the class-statistics
      columns start, so the box covers more of the table when there are no exams. */
  lemma GrandTotalBoxEnd(hasExam: bool)
    ensures var cols := Columns(hasExam);
      IndexOf(cols, if hasExam then Prev1 else Highest) == 8
  {
    var cols := Columns(hasExam);
    assert KeysOf(cols)[8] == cols[8].key;
    ColumnsByExam(hasExam);
  }

  /** A header spanning [start, end) above the table. */
  datatype Span = Span(start: int, end: int)

  /** Where the keys the group headers refer to sit in the column list. */
  lemma HeaderIndices(hasExam: bool)
    ensures var cols := Columns(hasExam);
      && IndexOf(cols, Ca1) == 1 && IndexOf(cols, CaTotal) == 3
      && IndexOf(cols, Prev1) == |cols| - 6 && IndexOf(cols, Highest) == |cols| - 3
      && (hasExam ==> IndexOf(cols, Exam) == 4)
      && (!hasExam ==> IndexOf(cols, Exam) == -1)
  {
    var cols := Columns(hasExam);
    var ks := KeysOf(cols);
    ColumnsByExam(hasExam);
    assert ks[0] == Subject && ks[1] == Ca1 && ks[3] == CaTotal;
    assert ks[|cols| - 6] == Prev1 && ks[|cols| - 3] == Highest;
    if hasExam {
      assert ks[4] == Exam;
    } else {
      assert forall i :: 0 <= i < |cols| ==> cols[i].key != Exam by {
        forall i | 0 <= i < |cols|
          ensures cols[i].key != Exam
        {
          assert ks[i] == cols[i].key;
        }
      }
    }
  }

  /** The four group headers: continuous assessment over ca1..caTotal, the term's work from
      the exam column (or, without one, from after caTotal) to the first-term column, the
      earlier terms up to the class statistics, and the class statistics to the table's end.
      They follow one another without gap or overlap, from the first CA column to the right
      edge of the table. */
  function GroupHeaders(hasExam: bool): (spans: seq<Span>)
    ensures |spans| == 4
    ensures spans[0].start == ColumnX(Columns(hasExam), 1)
    ensures spans[3].end == ColumnX(Columns(hasExam), |Columns(hasExam)|)
    ensures forall k :: 0 <= k < 3 ==> spans[k].end == spans[k + 1].start
    ensures forall k :: 0 <= k < 4 ==> spans[k].start < spans[k].end
  {
    SpansBetween(Columns(hasExam), HeaderColumnIndices(hasExam))
  }

  /** The spans from `colX[a]` to `colX[b]` for each pair (a, b) of column indices; each
      is non-empty when a < b and the widths are positive. */
  function SpansBetween(cols: seq<Column>, ix: seq<(nat, nat)>): (spans: seq<Span>)
    requires forall k :: 0 <= k < |cols| ==> cols[k].width > 0
    requires forall k :: 0 <= k < |ix| ==> ix[k].0 < ix[k].1 <= |cols|
    ensures |spans| == |ix|
    ensures forall k :: 0 <= k < |ix| ==>
      && spans[k] == Span(ColumnX(cols, ix[k].0), ColumnX(cols, ix[k].1))
      && spans[k].start < spans[k].end
  {
    if ix == [] then []
    else
      var n := |ix| - 1;
      ColumnsIncrease(cols, ix[n].0, ix[n].1);
      SpansBetween(cols, ix[..n]) + [Span(ColumnX(cols, ix[n].0), ColumnX(cols, ix[n].1))]
  }

  /** The column indices the four group headers run between (`idx(...)` lookups). */
  function HeaderColumnIndices(hasExam: bool): (ix: seq<(nat, nat)>)
    ensures |ix| == 4
    ensures ix[0].0 == 1 && ix[3].1 == |Columns(hasExam)|
    ensures forall k :: 0 <= k < 3 ==> ix[k].1 == ix[k + 1].0
    ensures forall k :: 0 <= k < 4 ==> ix[k].0 < ix[k].1 <= |Columns(hasExam)|
  {
    var cols := Columns(hasExam);
    HeaderIndices(hasExam);
    var ca1, caTotal, prev1, highest := IndexOf(cols, Ca1), IndexOf(cols, CaTotal), IndexOf(cols, Prev1), IndexOf(cols, Highest);
    var termsStart := if hasExam then IndexOf(cols, Exam) else caTotal + 1;
    [(ca1, caTotal + 1), (termsStart, prev1), (prev1, highest), (highest, |cols|)]
  }

  /** The column positions of the report strictly increase. */
  lemma PositionsIncrease(hasExam: bool)
    ensures forall i: nat, j: nat :: i < j <= |Columns(hasExam)| ==>
      ColumnX(Columns(hasExam), i) < ColumnX(Columns(hasExam), j)
  {
    var cols := Columns(hasExam);
    forall i: nat, j: nat | i < j <= |cols|
      ensures ColumnX(cols, i) < ColumnX(cols, j)
    {
      ColumnsIncrease(cols, i, j);
    }
  }

  /** Positions of columns with positive widths strictly increase. */
  lemma ColumnsIncrease(cols: seq<Column>, i: nat, j: nat)
    requires forall k :: 0 <= k < |cols| ==> cols[k].width > 0
    requires i < j <= |cols|
    ensures ColumnX(cols, i) < ColumnX(cols, j)
    decreases j - i
  {
    assert cols[..i + 1][..i] == cols[..i];
    if i + 1 < j {
      ColumnsIncrease(cols, i + 1, j);
    }
  }

  // ---------------------------------------------------------------- character tables

  const TableGap: real := 12.0
  /** Width of each of the two character tables. */
  const CharTableWidth: real := (UsableWidth - TableGap) / 2.0
  const CharHeaderHeight: real := 18.0
  const CharRowHeight: real := 14.0

  /** The sum of a list of widths. */
  function SumWidths(ws: seq<real>): real
  {
    if ws == [] then 0.0 else SumWidths(ws[..|ws| - 1]) + ws[|ws| - 1]
  }

  /** The default name-column width: 35% of the table, rounded, and at least 70. */
  function DefaultNameWidth(): (w: int)
    ensures w >= 70
  {
    var r := Round(CharTableWidth * 0.35);
    if r > 70 then r else 70
  }

  /** The default rating widths: five columns sharing the rest of the table equally,
      each rounded down. */
  function DefaultRatingWidths(nameWidth: real): (ws: seq<real>)
    ensures |ws| == 5
    ensures forall i :: 0 <= i < 5 ==> ws[i] == ((CharTableWidth - nameWidth) / 5.0).Floor as real
  {
    var w := ((CharTableWidth - nameWidth) / 5.0).Floor as real;
    [w, w, w, w, w]
  }

  /** With the default widths the name and rating columns fit in the table width. */
  lemma DefaultWidthsFit()
    ensures DefaultNameWidth() == 95
    ensures DefaultRatingWidths(95.0) == [35.0, 35.0, 35.0, 35.0, 35.0]
    ensures 95.0 + SumWidths(DefaultRatingWidths(95.0)) <= CharTableWidth
  {
    assert CharTableWidth == 271.64;
    assert Round(CharTableWidth * 0.35) == 95;
    assert (CharTableWidth - 95.0) / 5.0 == 35.328;
    var ws := DefaultRatingWidths(95.0);
    assert ws == [35.0, 35.0, 35.0, 35.0, 35.0];
    TotalOf5(ws);
  }

  lemma TotalOf5(ws: seq<real>)
    requires |ws| == 5
    ensures SumWidths(ws) == ws[0] + ws[1] + ws[2] + ws[3] + ws[4]
  {
    assert ws[..5] == ws;
    assert ws[..4][..3] == ws[..3];
    assert ws[..3][..2] == ws[..2];
    assert ws[..2][..1] == ws[..1];
    assert ws[..1][..0] == [];
    assert SumWidths(ws[..1]) == ws[0];
    assert SumWidths(ws[..2]) == ws[0] + ws[1];
    assert SumWidths(ws[..3]) == ws[0] + ws[1] + ws[2];
    assert SumWidths(ws[..4]) == ws[0] + ws[1] + ws[2] + ws[3];
  }

  /** The widths the report passes for its two tables add up to 273 and 272 points, a little
      more than the 271.64 the header band is drawn with, yet the left table still ends
      before the right one begins. */
  lemma ReportCharacterTables()
    ensures 110.0 + SumWidths([39.0, 26.0, 26.0, 36.0, 36.0]) == 273.0
    ensures 120.0 + SumWidths([38.0, 26.0, 26.0, 26.0, 36.0]) == 272.0
    ensures 273.0 > CharTableWidth && 272.0 > CharTableWidth
    ensures BorderMargin as real + 273.0 < BorderMargin as real + CharTableWidth + TableGap
  {
    TotalOf5([39.0, 26.0, 26.0, 36.0, 36.0]);
    TotalOf5([38.0, 26.0, 26.0, 26.0, 36.0]);
  }

  /** `drawCharacterTable`: the rating-column separators start after the name column and
      advance by each rating width; every row sits one row height below the previous one,
      its rating cells lined up under the separators; the table ends below its last row. */
  method CharacterTable(x: real, yStart: real, itemCount: nat, nameColWidth: real, ratingColWidths: seq<real>)
    returns (separators: seq<real>, rowYs: seq<real>, cellXs: seq<seq<real>>, endY: real)
    ensures |separators| == |ratingColWidths|
    ensures forall c :: 0 <= c < |separators| ==> separators[c] == x + nameColWidth + SumWidths(ratingColWidths[..c])
    ensures |rowYs| == itemCount && |cellXs| == itemCount
    ensures forall r :: 0 <= r < itemCount ==> rowYs[r] == yStart + CharHeaderHeight + r as real * CharRowHeight
    ensures forall r :: 0 <= r < itemCount ==> cellXs[r] == separators
    ensures endY == yStart + CharHeaderHeight + itemCount as real * CharRowHeight
    ensures itemCount > 0 ==> endY == rowYs[itemCount - 1] + CharRowHeight
  {
    separators := [];
    var segX := x + nameColWidth;
    var c := 0;
    while c < |ratingColWidths|
      invariant 0 <= c <= |ratingColWidths|
      invariant |separators| == c
      invariant segX == x + nameColWidth + SumWidths(ratingColWidths[..c])
      invariant forall k :: 0 <= k < c ==> separators[k] == x + nameColWidth + SumWidths(ratingColWidths[..k])
    {
      separators := separators + [segX];
      assert ratingColWidths[..c + 1][..c] == ratingColWidths[..c];
      segX := segX + ratingColWidths[c];
      c := c + 1;
    }
    rowYs := [];
    cellXs := [];
    var r := 0;
    while r < itemCount
      invariant 0 <= r <= itemCount
      invariant |rowYs| == r && |cellXs| == r
      invariant forall k :: 0 <= k < r ==> rowYs[k] == yStart + CharHeaderHeight + k as real * CharRowHeight
      invariant forall k :: 0 <= k < r ==> cellXs[k] == separators
    {
      var rowY := yStart + CharHeaderHeight + r as real * CharRowHeight;
      var cells := [];
      var cellX := x + nameColWidth;
      var k := 0;
      while k < |ratingColWidths|
        invariant 0 <= k <= |ratingColWidths|
        invariant cells == separators[..k]
        invariant cellX == x + nameColWidth + SumWidths(ratingColWidths[..k])
      {
        cells := cells + [cellX];
        assert ratingColWidths[..k + 1][..k] == ratingColWidths[..k];
        cellX := cellX + ratingColWidths[k];
        k := k + 1;
      }
      rowYs := rowYs + [rowY];
      cellXs := cellXs + [cells];
      r := r + 1;
    }
    endY := yStart + CharHeaderHeight + itemCount as real * CharRowHeight;
  }

  // ---------------------------------------------------------------- rule around the passport box

  /** A horizontal piece of a rule, from x `from` to x `to`. */
  datatype Segment = Segment(from: real, to: real)

  predicate Covers(seg: Segment, p: real)
  {
    seg.from <= p <= seg.to
  }

  /** Whether the point at x = p is drawn by one of the segments. */
  predicate Drawn(segs: seq<Segment>, p: real)
  {
    exists k :: 0 <= k < |segs| && Covers(segs[k], p)
  }

  /** `drawHorizontalWithGap`: the part of [left, right] before the gap, when there is one,
      and the part after it, when there is one. Nothing is drawn inside the gap, nothing
      outside [left, right], and every point of [left, right] strictly outside the gap is drawn. */
  function SegmentsAroundGap(left: real, right: real, gapStart: real, gapEnd: real): (segs: seq<Segment>)
    ensures forall k :: 0 <= k < |segs| ==> left <= segs[k].from && segs[k].to <= right
    ensures forall k, p :: 0 <= k < |segs| && Covers(segs[k], p) ==> p <= gapStart || p >= gapEnd
    ensures forall p :: left <= p <= right && (p < gapStart || p > gapEnd) ==> Drawn(segs, p)
  {
    var before := if left < gapStart then [Segment(left, if gapStart < right then gapStart else right)] else [];
    var after := if gapEnd < right then [Segment(if gapEnd > left then gapEnd else left, right)] else [];
    var segs := before + after;
    assert forall p :: left <= p <= right && p < gapStart ==> Covers(segs[0], p) && Drawn(segs, p);
    assert gapEnd < right ==> segs[|segs| - 1] == after[0];
    assert forall p :: left <= p <= right && p > gapEnd ==> Covers(segs[|before|], p) && Drawn(segs, p);
    segs
  }

  /** The passport box sits 10 points inside the right border, 60 wide; the gap leaves 6
      points either side of it. */
  const PassportBoxX: real := BorderMargin as real + UsableWidth - 60.0 - 10.0
  const GapStart: real := PassportBoxX - 6.0
  const GapEnd: real := PassportBoxX + 60.0 + 6.0
  /** The info table's right edge, `infoColX[3]`: three thirds of the usable width on. */
  const InfoRight: real := BorderMargin as real + UsableWidth / 3.0 + UsableWidth / 3.0 + UsableWidth / 3.0

  /** On the report the info-table rules run from 20 to 499.28 and from 571.28 to 575.28. */
  lemma InfoTableRules()
    ensures SegmentsAroundGap(BorderMargin as real, InfoRight, GapStart, GapEnd)
      == [Segment(20.0, 499.28), Segment(571.28, 575.28)]
  {
  }

  // ---------------------------------------------------------------- vertical flow

  /** Header: the school's name starts 6 points below the border, the info section 65 below
      that; the passport row is 20 high and the info table, from there, 60. */
  const HeaderTextY: int := BorderMargin + 5 + 1
  const InfoTableY: int := HeaderTextY + 65 + 20
  /** `charYStart`: 8 points below the info section. */
  const CharYStart: real := (InfoTableY + 60 + 8) as real
  const CharItems: nat := 3

  /** Where the main table begins: 12 below the character tables, then, when the extra
      section image was drawn, its estimated height of half the usable width plus 10, and
      then 10 more. */
  function TableStartY(imageDrawn: bool): (y: real)
    ensures y == (if imageDrawn then 548.64 else 261.0)
  {
    var charEnd := CharYStart + CharHeaderHeight + CharItems as real * CharRowHeight;
    var docY := charEnd + 12.0;
    (if imageDrawn then docY + 10.0 + UsableWidth * 0.5 else docY) + 10.0
  }

  const HeaderRowHeight: real := 44.0
  const RowHeight: real := 20.0

  /** A subject row placed on the page. */
  datatype PlacedRow = PlacedRow(y: real, cells: RC.ReportRow)

  /** The subject-row loop: row i sits at `dataStartY + 20 i` and shows the figures of the
      i-th result; the cursor ends one row height below the last row, where the column
      lines drawn beforehand also end. */
  method PlaceRows(results: seq<ScoreRecord>, tableStartY: real, hasExam: bool, termIndex: int,
                   prev1: map<string, int>, prev2: map<string, int>, subjectToTotals: map<string, seq<int>>)
    returns (rows: seq<PlacedRow>, rowY: real)
    ensures |rows| == |results|
    ensures forall i :: 0 <= i < |results| ==>
      rows[i] == PlacedRow(tableStartY + 2.0 * HeaderRowHeight + i as real * RowHeight,
                           RC.RowCells(results[i], hasExam, termIndex, prev1, prev2, subjectToTotals))
    ensures rowY == tableStartY + 2.0 * HeaderRowHeight + |results| as real * RowHeight
    ensures rowY + 10.0 == GrandTotalY(tableStartY, |results|)
  {
    var dataStartY := tableStartY + 2.0 * HeaderRowHeight;
    rowY := dataStartY;
    rows := [];
    var i := 0;
    while i < |results|
      invariant 0 <= i <= |results|
      invariant |rows| == i
      invariant rowY == dataStartY + i as real * RowHeight
      invariant forall k :: 0 <= k < i ==>
        rows[k] == PlacedRow(dataStartY + k as real * RowHeight,
                             RC.RowCells(results[k], hasExam, termIndex, prev1, prev2, subjectToTotals))
    {
      rows := rows + [PlacedRow(rowY, RC.RowCells(results[i], hasExam, termIndex, prev1, prev2, subjectToTotals))];
      rowY := rowY + RowHeight;
      i := i + 1;
    }
  }

  /** The grand-total row sits 10 below the last subject row. */
  function GrandTotalY(tableStartY: real, rowCount: nat): (y: real)
    ensures y >= tableStartY + 2.0 * HeaderRowHeight + 10.0
    ensures rowCount > 0 ==>
      y == tableStartY + 2.0 * HeaderRowHeight + (rowCount - 1) as real * RowHeight + RowHeight + 10.0
  {
    tableStartY + 2.0 * HeaderRowHeight + rowCount as real * RowHeight + 10.0
  }

  const PageMargin: real := 60.0
  const EstimatedFooterHeight: real := 300.0

  /** Where the footer starts: on a new page, at the top margin, when the estimated footer
      would cross the bottom margin; otherwise 40 below the grand total. Staying on the page
      means the whole estimated footer fits above the bottom margin. */
  function FooterStart(grandTotalY: real, pageHeight: real): (placement: (bool, real))
    ensures placement.0 <==> grandTotalY + EstimatedFooterHeight > pageHeight - PageMargin
    ensures placement.0 ==> placement.1 == PageMargin
    ensures !placement.0 ==> placement.1 == grandTotalY + 40.0
    ensures !placement.0 ==> placement.1 + (EstimatedFooterHeight - 40.0) <= pageHeight - PageMargin
  {
    if grandTotalY + EstimatedFooterHeight > pageHeight - PageMargin then (true, PageMargin)
    else (false, grandTotalY + 40.0)
  }

  /** On A4 the footer moves to a new page always when the extra section image was drawn,
      and otherwise exactly when the report has seven or more subject rows. */
  lemma PageBreakRule(imageDrawn: bool, rowCount: nat)
    ensures FooterStart(GrandTotalY(TableStartY(imageDrawn), rowCount), PageHeight).0
      <==> imageDrawn || rowCount >= 7
  {
    if !imageDrawn && rowCount >= 7 {
      assert rowCount as real * RowHeight >= 140.0;
    }
  }

  /** A remark box is 14 points taller than its text, but never below 30. */
  function RemarkBoxHeight(textHeight: real): (h: real)
    ensures h >= 30.0 && h >= textHeight + 14.0
    ensures h == 30.0 || h == textHeight + 14.0
  {
    if 30.0 > textHeight + 14.0 then 30.0 else textHeight + 14.0
  }

  /** Width of the remark boxes: the usable width less 160 and the left margin. */
  const RemarksWidth: real := UsableWidth - 160.0 - BorderMargin as real
  /** The grading key stands 24 to the right of the remark boxes and is 40 + 80 wide. */
  const KeyTableX: real := BorderMargin as real + RemarksWidth + 24.0
  const KeyRows: nat := 7
  const KeyRowHeight: real := 18.0

  /** The footer boxes stacked from `remarksY`: promotional status (20 high), then the class
      teacher's and the principal's remark boxes; the boxes touch and each is at least 30 high. */
  method FooterBoxes(remarksY: real, classRemarkHeight: real, headRemarkHeight: real)
    returns (boxTops: seq<real>, boxHeights: seq<real>, bottom: real)
    ensures |boxTops| == 3 && |boxHeights| == 3
    ensures boxTops[0] == remarksY && boxHeights[0] == 20.0
    ensures boxHeights[1] == RemarkBoxHeight(classRemarkHeight)
    ensures boxHeights[2] == RemarkBoxHeight(headRemarkHeight)
    ensures forall k :: 0 <= k < 2 ==> boxTops[k + 1] == boxTops[k] + boxHeights[k]
    ensures bottom == boxTops[2] + boxHeights[2]
    ensures bottom >= remarksY + 80.0
  {
    var y := remarksY;
    boxTops := [y];
    boxHeights := [20.0];
    y := y + 20.0;
    var boxHeight := RemarkBoxHeight(classRemarkHeight);
    boxTops := boxTops + [y];
    boxHeights := boxHeights + [boxHeight];
    y := y + boxHeight;
    var headBoxHeight := RemarkBoxHeight(headRemarkHeight);
    boxTops := boxTops + [y];
    boxHeights := boxHeights + [headBoxHeight];
    bottom := y + headBoxHeight;
  }

  /** The grading-key loop: the seven rows start 15 below the key's header line, itself 18
      below the top of the remarks, and follow one another 18 apart. */
  method KeyTable(remarksYStart: real) returns (rowYs: seq<real>, keyY: real)
    ensures |rowYs| == KeyRows
    ensures forall k :: 0 <= k < KeyRows ==> rowYs[k] == remarksYStart + 33.0 + k as real * KeyRowHeight
    ensures keyY == remarksYStart + 33.0 + KeyRows as real * KeyRowHeight
  {
    var keyHeaderY := remarksYStart + 18.0;
    keyY := keyHeaderY + 15.0;
    rowYs := [];
    var k := 0;
    while k < KeyRows
      invariant 0 <= k <= KeyRows
      invariant |rowYs| == k
      invariant keyY == remarksYStart + 33.0 + k as real * KeyRowHeight
      invariant forall j :: 0 <= j < k ==> rowYs[j] == remarksYStart + 33.0 + j as real * KeyRowHeight
    {
      rowYs := rowYs + [keyY];
      keyY := keyY + KeyRowHeight;
      k := k + 1;
    }
  }

  /** The grading key lies to the right of the remark boxes and inside the border. */
  lemma KeyTableBesideRemarks()
    ensures BorderMargin as real + RemarksWidth < KeyTableX
    ensures KeyTableX + 40.0 + 80.0 <= BorderMargin as real + UsableWidth
  {
  }
}
