# School results: report card and dashboards, in Dafny

This project models the computing core of a school results system. It has two parts.

The backend route `GET /:student_id/result/pdf` builds a student's report card. The model covers its arithmetic:
- the grand total and the term average;
- the descriptive grade band;
- the class average, highest and lowest average;
- the per-subject class statistics;
- the earlier-term totals and the cumulative average.

It also covers the report card's geometry:
- the data-dependent column list and the column positions;
- the group headers;
- the character tables;
- the rule broken around the passport box;
- the vertical flow of the page and the footer page break;
- the remark boxes and the grading key.

The model also covers the small pure helpers of three front-end pages:
- **Teacher dashboard:** the grade code (`getGrade`) and the live grade while marks are typed. It also covers the batch-row list, batch validation and the fallback grade sent with each row.
- **Student dashboard:** the summary figures, the remark, the grade colour and the photo address.
- **Administrator dashboard:**
  - the result history grouped by student;
  - checkbox toggles and select-all;
  - the `student_id||term||session` keys of pending approvals and their decoding;
  - removing approved lines from the pending list;
  - the history row total and the manual-entry zero fill-in.

The modules, one per file, are:
- `Numbers`: `Math.round`, the value `toFixed` denotes, sums, maxima, minima and means.
- `Text`: `trim`, splitting on `||`, `join`, and the distinct members of a list.
- `Records`:
  - score cells as JavaScript holds them;
  - the score record;
  - subject and grand totals;
  - the exam test `hasExam`;
  - grouping by student.
- `Grading`: the seven-band scale shared by the report card and the teacher's page.
- `ReportCard` and `ReportLayout`: the report card's figures and geometry.
- `TeacherDashboard`, `StudentDashboard` and `AdminDashboard`.

The database, the PDF library and the browser are inputs or are left out. Database query results are sequences of records. The extra section image being drawn, the measured height of a remark text, and the success of a request are parameters.

The model follows the code where it differs from the obvious reading of the code:
- **Column count.** The report table has 14 columns with exam columns and 11 without. That is four leading columns, three exam columns and seven trailing columns.
- **`getGrade` scales fractions.** A value in (0, 1] is read as a fraction and multiplied by 100. So `getGrade(1)` is A1, `getGrade(2)` is F9, and the grade is not monotone across 1. Elsewhere it is monotone (`TeacherDashboard.FractionQuirk`, `TeacherDashboard.GetGradeMonotone`).
- **Pending keys.** A key decodes to its three fields only when the id and the term hold no `||` and do not end in `|`, and the session holds no `||`. The key of student `7|` decodes as student `7` with term `|1st` (`AdminDashboard.TrailingBarBreaksKey`).
- **History row total.** The administrator's history row total is `Number(x || 0)` per part. That is `NaN` for a part holding non-numeric text, whereas the report card reads such a part as 0.
- **Earlier-term totals.** The queries for earlier terms do not filter on approval, so unapproved earlier results count towards the cumulative average.
- **Character tables.** The widths the report passes add up to 273 and 272 points. Both are wider than the 271.64-point table.
- **Dashboard remark.** The remark is decided on the average already rounded to one place, so a mean of 69.96 shows "Excellent".

## Model

| member | source | states |
|---|---|---|
| Numbers.Round | backend/routes/student.js:542 | `Math.round(x)` is the integer within half a unit of x, a half going up |
| Numbers.ToFixed | backend/routes/student.js:222 | the value printed with 1 or 2 places lies within half a last-place unit of x |
| Numbers.ToFixedMonotone | backend/routes/student.js:262-264 | formatting to fixed places never reorders two values |
| Numbers.ToFixedWhole | backend/routes/student.js:551-553 | a whole number is printed unchanged |
| Numbers.Max | backend/routes/student.js:549 | `Math.max(...xs)` is a member of the list that no member exceeds |
| Numbers.Min | backend/routes/student.js:550 | `Math.min(...xs)` is a member of the list that no member undercuts |
| Numbers.MaxReal | backend/routes/student.js:263 | the highest student average is one of the averages and no average exceeds it |
| Numbers.MinReal | backend/routes/student.js:264 | the lowest student average is one of the averages and none is below it |
| Numbers.SumBounds | backend/routes/student.js:551 | a sum lies between its length times a lower and an upper bound of its members |
| Numbers.MeanWithinRange | backend/routes/student.js:549-551 | the mean of the subject totals lies between their minimum and maximum |
| Numbers.MeanRealWithinRange | backend/routes/student.js:262-264 | the mean of the student averages lies between their minimum and maximum |
| Numbers.SumAppend | backend/routes/student.js:542 | the sum of a concatenation is the sum of the sums |
| Text.TrimStart | frontend/src/pages/StudentDashboard.js:116 | removes exactly the leading whitespace: what it drops is whitespace and what is left does not start with whitespace |
| Text.TrimEnd | frontend/src/pages/StudentDashboard.js:116 | removes exactly the trailing whitespace |
| Text.TrimIsMiddle | frontend/src/pages/StudentDashboard.js:116 | `trim` keeps a middle slice of the string with no whitespace at either end |
| Text.Trim | frontend/src/pages/StudentDashboard.js:116 | `trim()`: the leading whitespace removed, then the trailing whitespace |
| Text.TrimDropsTail | frontend/src/pages/StudentDashboard.js:116 | everything `trim()` drops after the kept slice is whitespace |
| Text.TrimEnds | frontend/src/pages/StudentDashboard.js:116 | a trimmed string is empty or neither starts nor ends with whitespace |
| Text.TrimFixed | frontend/src/pages/StudentDashboard.js:116 | a string without whitespace at its ends is its own trim |
| Text.FindSeparator | frontend/src/pages/AdminDashboard.js:489 | finds the first double bar at or after a position, or the end when there is none |
| Text.SplitAfterField | frontend/src/pages/AdminDashboard.js:489 | a field without the double bar and not ending in a bar, followed by the double bar, splits off as the first piece |
| Text.SplitWhole | frontend/src/pages/AdminDashboard.js:489 | a string without the double bar splits into itself alone |
| Text.Split | frontend/src/pages/AdminDashboard.js:489 | `split('||')` always yields at least one piece |
| Text.SplitPiecesClean | frontend/src/pages/AdminDashboard.js:489 | no piece of a split holds the double bar |
| Text.Join | frontend/src/pages/AdminDashboard.js:88 | `join(sep)`: empty for no parts, the part itself for one, and always starting with the first part |
| Text.JoinCons | frontend/src/pages/AdminDashboard.js:88 | joining a part in front of a non-empty list puts the separator between it and the rest |
| Text.JoinSplit | frontend/src/pages/AdminDashboard.js:482-489 | joining the pieces of a split with the double bar gives the string back |
| Text.Dedup | frontend/src/pages/AdminDashboard.js:89 | `Array.from(new Set(xs))` has the same members as xs and no repetition |
| Text.DedupFirstOccurrenceOrder | frontend/src/pages/AdminDashboard.js:89 | the distinct members come in order of first occurrence |
| Records.NumOr0 | backend/routes/student.js:217-219 | `Number(x) or 0` is non-zero only for a number, and then it is that number |
| Records.CaTotal | backend/routes/student.js:512 | `caTotal`: the two CA marks, each counted as `Number(x) or 0` (stated by Records.NoExamMeansCaOnly and Records.BlankCountsAsZero) |
| Records.SubjectTotal | backend/routes/student.js:217-219 | a subject's total: the two CA marks and the exam score, each counted as `Number(x) or 0` (stated by Records.BlankCountsAsZero) |
| Records.GrandTotal | backend/routes/student.js:215-220 | `grandTotal`: the sum of the subject totals (stated by Records.GrandTotalIsSum) |
| Records.SubjectTotals | backend/routes/student.js:216-220 | one subject total per result, in order |
| Records.GrandTotalIsSum | backend/routes/student.js:215-220 | the grand total is the sum of the subject totals of the results |
| Records.BlankCountsAsZero | backend/routes/student.js:217-219 | an absent, blank or non-numeric part counts exactly like 0 in a subject total |
| Records.GrandTotalAppend | backend/routes/student.js:216-221 | the grand total of two result lists together is the sum of their grand totals |
| Records.GrandTotalOrderFree | backend/routes/student.js:216-221 | the grand total does not depend on the order of the results |
| Records.NoExamMeansCaOnly | backend/routes/student.js:370 | when `hasExam` is false the grand total is the CA total alone |
| Records.HasExamScore | backend/routes/student.js:370 | a result has an exam score exactly when its score is present and not blank |
| Records.HasExam | backend/routes/student.js:370 | `hasExam` (also frontend/src/pages/StudentDashboard.js:127) holds exactly when some result has an exam score; without one every subject total is its CA total |
| Records.GroupIndex | frontend/src/pages/TeacherDashboard.js:663-664 | `acc[r.student_id]` finds the group of that id, or none when there is no such group |
| Records.GroupByStudent | frontend/src/pages/TeacherDashboard.js:663-666 | no more groups than results (the grouping itself is stated by Records.GroupByStudentCorrect) |
| Records.GroupByStudentCorrect | frontend/src/pages/TeacherDashboard.js:663-667 | one group per distinct student id in order of first appearance, each holding exactly that student's results in input order |
| Records.NoneOfStudent | frontend/src/pages/TeacherDashboard.js:663-666 | a student with no result has no results in any group |
| Grading.BandOf | backend/routes/student.js:224-233 | an average reaches a band's lower bound exactly when the chosen band is at least that good |
| Grading.BandOfMonotone | backend/routes/student.js:224-233 | a higher average never gets a worse band |
| Grading.Code | frontend/src/pages/TeacherDashboard.js:59-65 | every band's code has two characters |
| Grading.Descriptive | backend/routes/student.js:224-233 | the descriptive label is the band's code followed by a parenthesised word |
| Grading.RenderingsAgree | frontend/src/pages/TeacherDashboard.js:59-65 | the short code begins the descriptive label, and different bands render differently |
| ReportCard.TermIndex | backend/routes/student.js:186-187 | `termOrder.indexOf(term)` is the term's position, and -1 exactly for an unknown term |
| ReportCard.TermAverage | backend/routes/student.js:216-222 | 0.00 without results, otherwise within 0.005 of grand total over count |
| ReportCard.NoResultsFail | backend/routes/student.js:222-234 | a report without approved results shows 0.00 and "F9 (Fail)" |
| ReportCard.TermGrade | backend/routes/student.js:224-234 | 'A1 (Excellent)' exactly when the printed average is at least 75, 'F9 (Fail)' exactly when below 50, and always the label of the average's band |
| ReportCard.TermGradeMonotone | backend/routes/student.js:224-234 | a higher printed average never gets a worse cumulative grade |
| ReportCard.StudentAverages | backend/routes/student.js:243-259 | at most one average per classmate |
| ReportCard.OneAveragePerReportingStudent | backend/routes/student.js:243-259 | exactly one average per classmate with approved results; none at all exactly when no classmate has any |
| ReportCard.CohortStatistics | backend/routes/student.js:240-270 | the cohort loop yields those averages. The statistics are '0.00' without any, else the mean, maximum and minimum to two places. lowest <= average <= highest |
| ReportCard.TotalsOf | backend/routes/student.js:404-408 | one total per class row of the subject |
| ReportCard.TotalsOfPresent | backend/routes/student.js:404-408 | a subject with a class row has at least one total |
| ReportCard.GroupTotalsBySubject | backend/routes/student.js:403-408 | the map has a key exactly for each subject with a row, holding that subject's totals in row order |
| ReportCard.NoTotalsOfAbsent | backend/routes/student.js:547 | a subject without class rows has no totals |
| ReportCard.SubjectStats | backend/routes/student.js:545-555 | statistics exist exactly when the subject has totals. Then highest and lowest are members that bound every total; the average is the mean of the totals to two places (`toFixed(2)`), so within 0.005 of it, and lies between lowest and highest |
| ReportCard.LastIndexOf | backend/routes/student.js:196-200 | the position of the last row of a subject, with no later row of it, or -1 |
| ReportCard.TermTotals | backend/routes/student.js:196-200 | the map has exactly the subjects with rows, each mapped to the total of its last row (later rows overwrite) |
| ReportCard.PreviousTotals | backend/routes/student.js:186-213 | first-term totals only from index 1, second-term totals only from index 2, otherwise empty |
| ReportCard.CurrentTotalIsSubjectTotal | backend/routes/student.js:535-539 | on the report's own rows this term's total is the subject total whether or not exam columns are shown |
| ReportCard.Cumulative | backend/routes/student.js:531-544 | present exactly in the second and third term; it includes this term's total and lies between the smallest and largest total averaged |
| ReportCard.CumulativeOfThreeTerms | backend/routes/student.js:536-542 | with both earlier totals the cell is the rounded mean of the three |
| ReportCard.RowCells | backend/routes/student.js:508-555 | subject, CA marks, remark and the CA total of the row. Exam, 100% total and grade exactly when there are exam columns, then the row's score, subject total and grade. Each earlier total exactly from its term on when that term has the subject, then that term's total. Cumulative is the cumulative of those totals and this term's, present exactly in terms 2 and 3. Statistics are those of the subject's class totals, present exactly when it has some |
| ReportLayout.KeysOf | backend/routes/student.js:435 | the keys of the column list, in order |
| ReportLayout.Columns | backend/routes/student.js:373-389 | 14 columns with exams, 11 without. Fixed leading four and trailing seven, the exam trio between them, all widths positive |
| ReportLayout.ColumnsByExam | backend/routes/student.js:378-382 | exam, total and grade columns exist exactly when `hasExam`; keys are distinct |
| ReportLayout.ColumnPositions | backend/routes/student.js:391-393 | `colX` starts at 20, adds each width in turn, equals the prefix-sum positions, and strictly increases |
| ReportLayout.Increasing | backend/routes/student.js:391-393 | positions built from positive widths strictly increase |
| ReportLayout.TableFitsBorder | backend/routes/student.js:373-393 | the table is 555 points wide with exams and 482 without, inside the border |
| ReportLayout.WidthSumAppend | backend/routes/student.js:393 | the width of two column lists together is the sum of their widths |
| ReportLayout.IndexOf | backend/routes/student.js:435 | `findIndex`: the first position of a key, -1 when absent |
| ReportLayout.GrandTotalBoxEnd | backend/routes/student.js:562 | the fixed `colX[8]` is the first-term column with exams and the highest column without |
| ReportLayout.HeaderIndices | backend/routes/student.js:450-481 | where the keys the group headers use sit in each column list |
| ReportLayout.HeaderColumnIndices | backend/routes/student.js:453-481 | four header spans from column 1 to the end, each ending where the next begins |
| ReportLayout.SpansBetween | backend/routes/student.js:450-481 | each header span runs from `colX[a]` to `colX[b]` and is non-empty |
| ReportLayout.GroupHeaders | backend/routes/student.js:450-481 | the four group headers tile the table from `colX[1]` to its right edge without gaps, each of positive width |
| ReportLayout.PositionsIncrease | backend/routes/student.js:391-393 | the report's column positions strictly increase |
| ReportLayout.ColumnsIncrease | backend/routes/student.js:391-393 | positions of columns with positive widths strictly increase |
| ReportLayout.DefaultNameWidth | backend/routes/student.js:298 | the default name column is at least 70 wide |
| ReportLayout.DefaultRatingWidths | backend/routes/student.js:299-303 | five equal rating columns, each the floor of a fifth of the rest |
| ReportLayout.DefaultWidthsFit | backend/routes/student.js:298-303 | the defaults are 95 and 5 x 35, and fit in the table width |
| ReportLayout.ReportCharacterTables | backend/routes/student.js:283-286 | the passed widths add up to 273 and 272, both wider than the table, yet the left table ends before the right begins |
| ReportLayout.CharacterTable | backend/routes/student.js:295-349 | separators at prefix sums of the rating widths, rows every 14 points after an 18-point header, and the result `yStart + 18 + 14n` |
| ReportLayout.SegmentsAroundGap | backend/routes/student.js:159-168 | the rule stays within its ends, never enters the gap, and draws every point outside it |
| ReportLayout.InfoTableRules | backend/routes/student.js:119-121 | on the report the rule runs from 20 to 499.28 and from 571.28 to 575.28 |
| ReportLayout.TableStartY | backend/routes/student.js:351-396 | the table starts at 261 without the extra image and at 548.64 with it |
| ReportLayout.PlaceRows | backend/routes/student.js:506-557 | row i sits at `dataStartY + 20i` with the cells of result i; the cursor ends one row below the last |
| ReportLayout.GrandTotalY | backend/routes/student.js:558 | `grandTotalY` is 10 below the last data row's bottom, and at least 10 below the header rows |
| ReportLayout.FooterStart | backend/routes/student.js:568-577 | a new page exactly when `grandTotalY + 300 > pageHeight - 60` (equality stays), remarks then at 60, else at `grandTotalY + 40` with room to spare |
| ReportLayout.PageBreakRule | backend/routes/student.js:559-577 | on A4 the footer breaks to a new page exactly when the image was drawn or there are 7 or more rows |
| ReportLayout.RemarkBoxHeight | backend/routes/student.js:596 | a remark box is at least 30 and at least 14 more than its text, and is one of the two |
| ReportLayout.FooterBoxes | backend/routes/student.js:580-607 | three boxes stacked without gaps from `remarksY`: 20, then the two remark boxes, together at least 80 high |
| ReportLayout.KeyTable | backend/routes/student.js:620-641 | seven key rows every 18 points from 33 below the remark start; the cursor ends below the last |
| ReportLayout.KeyTableBesideRemarks | backend/routes/student.js:580-622 | the grading key lies right of the remark boxes and inside the border |
| TeacherDashboard.Normalise | frontend/src/pages/TeacherDashboard.js:52-56 | in 0..100; fractions in (0,1] scaled by 100 and rounded; otherwise rounded and clamped |
| TeacherDashboard.IntBandIsReportScale | frontend/src/pages/TeacherDashboard.js:59-65 | the inclusive integer ranges are exactly the report card's bands |
| TeacherDashboard.GetGrade | frontend/src/pages/TeacherDashboard.js:48-66 | '' exactly for non-numbers. Otherwise one of the seven codes, the code of the band of the normalised value |
| TeacherDashboard.GetGradeClamps | frontend/src/pages/TeacherDashboard.js:55-56 | negative input grades F9, above 100 grades A1 |
| TeacherDashboard.FractionQuirk | frontend/src/pages/TeacherDashboard.js:52 | 1 grades A1 but 2 grades F9; 0.75 grades like 75 |
| TeacherDashboard.GetGradeMonotone | frontend/src/pages/TeacherDashboard.js:52-65 | monotone except across the fraction boundary at 1 |
| TeacherDashboard.FractionOfHundred | frontend/src/pages/TeacherDashboard.js:52 | t and t/100 grade alike for t = 0 or 1 < t <= 100 |
| TeacherDashboard.LiveGrade | frontend/src/pages/TeacherDashboard.js:69-95 | '' exactly when the edited value is '' and the other is '' or undefined; otherwise the grade of the rounded total |
| TeacherDashboard.OneMarkGradesA1 | frontend/src/pages/TeacherDashboard.js:72-76 | a single CA mark of 1 with no exam grades A1 |
| TeacherDashboard.GradeEntry.constructor | frontend/src/pages/TeacherDashboard.js:44 | all three score maps start empty |
| TeacherDashboard.GradeEntry.HandleCaChange | frontend/src/pages/TeacherDashboard.js:69-81 | stores the CA value and that student's live grade; exam scores unchanged |
| TeacherDashboard.GradeEntry.HandleExamChange | frontend/src/pages/TeacherDashboard.js:83-95 | stores the exam value and that student's live grade; CA scores unchanged |
| TeacherDashboard.AddRow | frontend/src/pages/TeacherDashboard.js:279-281 | appends one empty row and keeps the others |
| TeacherDashboard.ChangeRow | frontend/src/pages/TeacherDashboard.js:282-284 | only row idx changes, by the edit; an index out of range changes nothing |
| TeacherDashboard.EditTouchesOneField | frontend/src/pages/TeacherDashboard.js:283 | an edit changes one field only, and restoring the old value undoes it |
| TeacherDashboard.RemoveRowSlices | frontend/src/pages/TeacherDashboard.js:285-287 | removing idx leaves the rows before and after it in order; out of range changes nothing |
| TeacherDashboard.RemoveRow | frontend/src/pages/TeacherDashboard.js:285-287 | one row fewer for an index in range, otherwise the same number; every remaining row was a row before |
| TeacherDashboard.AddThenRemove | frontend/src/pages/TeacherDashboard.js:279-287 | removing the row just added gives the list back |
| TeacherDashboard.Subjects | frontend/src/pages/TeacherDashboard.js:292 | the subjects of the batch rows, in order |
| TeacherDashboard.SetSizeDistinct | frontend/src/pages/TeacherDashboard.js:294 | the set of subjects is as large as the batch exactly when no subject repeats |
| TeacherDashboard.ValidateBatch | frontend/src/pages/TeacherDashboard.js:288-314 | rejects duplicates first, then existing subjects, then the first row without a subject or without any score or grade, each if and only if; Valid exactly when all rows pass |
| TeacherDashboard.TwoBlankSubjectsAreDuplicates | frontend/src/pages/TeacherDashboard.js:294-306 | two rows without a subject are reported as duplicates, before the missing subject |
| TeacherDashboard.SentRoundTrip | frontend/src/pages/TeacherDashboard.js:318-321 | a mark is sent as undefined exactly when unset, and the sent value counts like the field |
| TeacherDashboard.PayloadOf | frontend/src/pages/TeacherDashboard.js:316-335 | the posted body: each mark undefined exactly when unset and otherwise counting like the field, the fallback grade, no remark exactly for an empty one, and the student, subject, term, session and class as given |
| TeacherDashboard.WholeRoundsToItself | frontend/src/pages/TeacherDashboard.js:322 | `Math.round` of a whole total is that total |
| TeacherDashboard.GradeToSend | frontend/src/pages/TeacherDashboard.js:316-322 | the row's own grade if set; else none exactly when the total is 0, otherwise `getGrade(Math.round(total))` of the sum of the marks sent, which equals the grade of the total itself; never '' |
| TeacherDashboard.SubmitBatch | frontend/src/pages/TeacherDashboard.js:288-345 | nothing is posted unless the batch is valid. Then one post per row in order, each the row's payload, stopping after a rejected post. The batch is cleared and 'All results added!' shown exactly when every post and the refresh succeed; otherwise the batch is kept and 'Error adding results.' shown |
| TeacherDashboard.ZeroTotalSendsNoGrade | frontend/src/pages/TeacherDashboard.js:310-322 | a row with content, no grade and a zero total is posted without a grade |
| StudentDashboard.GradeColor | frontend/src/pages/StudentDashboard.js:4-13 | a colour exactly for A, B, C, D and F |
| StudentDashboard.NoCodeIsColoured | frontend/src/pages/StudentDashboard.js:4-13 | none of the seven grade codes gets a colour |
| StudentDashboard.DashboardAverage | frontend/src/pages/StudentDashboard.js:96-102 | 0 without results, else within 0.05 of grand total over count |
| StudentDashboard.Remark | frontend/src/pages/StudentDashboard.js:104 | Excellent iff >= 70, Good iff 50 <= avg < 70, Needs Improvement iff < 50 |
| StudentDashboard.AgreesWithReportCard | frontend/src/pages/StudentDashboard.js:96-102 | the dashboard's average is within 0.055 of the report card's (equal without results) |
| StudentDashboard.RemarkUsesRoundedAverage | frontend/src/pages/StudentDashboard.js:102-104 | a mean of 69.96 shows 70.0 and Excellent, though 69.96 itself would be Good |
| StudentDashboard.RemarkMonotone | frontend/src/pages/StudentDashboard.js:104 | a higher average never gets a lower remark |
| StudentDashboard.DropPrefix | frontend/src/pages/StudentDashboard.js:119-121 | removes the prefix when the string starts with it, else nothing |
| StudentDashboard.ResolvePhotoUrl | frontend/src/pages/StudentDashboard.js:114-123 | none exactly for a missing or empty path; web addresses pass trimmed; others go under the upload base without one `backend/` and then one `/` |
| StudentDashboard.ResolveTrimmed | frontend/src/pages/StudentDashboard.js:114-123 | a trimmed path resolves without any trimming |
| StudentDashboard.StoredFormsAgree | frontend/src/pages/StudentDashboard.js:109-123 | `uploads/...`, `/uploads/...` and `backend/uploads/...` resolve to the same address |
| StudentDashboard.ResolveIdempotent | frontend/src/pages/StudentDashboard.js:114-123 | resolving an address again changes nothing |
| StudentDashboard.ResultTrimmed | frontend/src/pages/StudentDashboard.js:116-122 | every address given is trimmed and starts with http:// or https:// |
| StudentDashboard.BlankPathResolvesToBase | frontend/src/pages/StudentDashboard.js:115-122 | a path of blanks is not empty and resolves to the upload base itself |
| AdminDashboard.ClassNames | frontend/src/pages/AdminDashboard.js:89 | the class of every result, in order |
| AdminDashboard.ClassList | frontend/src/pages/AdminDashboard.js:88 | the classes joined: empty without results |
| AdminDashboard.DedupConstant | frontend/src/pages/AdminDashboard.js:88 | a non-empty list of one repeated class has that class as its only distinct member |
| AdminDashboard.OneClassListed | frontend/src/pages/AdminDashboard.js:88 | a student whose results all share a class lists just that class |
| AdminDashboard.AddResult | frontend/src/pages/AdminDashboard.js:82-85 | after a result is added, the keys are the old keys and that result's student id |
| AdminDashboard.CollectsNothing | frontend/src/pages/AdminDashboard.js:81 | the empty `grouped` holds the empty prefix of the results |
| AdminDashboard.CollectsStep | frontend/src/pages/AdminDashboard.js:82-85 | one `forEach` step keeps one entry per distinct id, holding that student's results |
| AdminDashboard.OrderStep | frontend/src/pages/AdminDashboard.js:82-83 | the key order grows by the new id exactly when that id was not seen yet |
| AdminDashboard.EntriesStep | frontend/src/pages/AdminDashboard.js:82-85 | after a step every entry holds exactly its student's results, starts with its first result and is not empty |
| AdminDashboard.CollectsSnoc | frontend/src/pages/AdminDashboard.js:82-85 | one `forEach` step on a state that holds a prefix of the results holds the prefix one longer |
| AdminDashboard.KeysStep | frontend/src/pages/AdminDashboard.js:82-83 | after a step the keys are exactly the ids in the key order |
| AdminDashboard.CollectHistory | frontend/src/pages/AdminDashboard.js:81-85 | `grouped` holds one entry per distinct id in first-appearance order, with the first result's fields and all the student's results |
| AdminDashboard.GroupHistory | frontend/src/pages/AdminDashboard.js:81-90 | `historyStudents`: per distinct id, that student's results in input order, the first result's fields and the distinct classes joined |
| AdminDashboard.Summaries | frontend/src/pages/AdminDashboard.js:86-89 | one summary per key in key order, each with that student's results, the first result's fields and the classes joined |
| AdminDashboard.EntrySummarises | frontend/src/pages/AdminDashboard.js:86-89 | the summary made from a collected entry is that student's summary |
| AdminDashboard.OfStudentMembers | frontend/src/pages/AdminDashboard.js:82-85 | a result is in a student's entry exactly when it carries that id, so it lands in exactly one entry |
| AdminDashboard.Without | frontend/src/pages/AdminDashboard.js:397 | `filter(x => x !== k)` keeps exactly the other members |
| AdminDashboard.Toggle | frontend/src/pages/AdminDashboard.js:396-398 | the toggled key's membership flips; every other key keeps its membership |
| AdminDashboard.WithoutAbsent | frontend/src/pages/AdminDashboard.js:397 | filtering out an absent key gives the list back |
| AdminDashboard.ToggleTwice | frontend/src/pages/AdminDashboard.js:474-476 | toggling twice restores membership, and the very list when the key was absent |
| AdminDashboard.ToggleKeepsDistinct | frontend/src/pages/AdminDashboard.js:474-476 | toggling never repeats a key |
| AdminDashboard.WithoutKeepsDistinct | frontend/src/pages/AdminDashboard.js:475 | filtering keeps a list free of repetitions |
| AdminDashboard.DecodeKey | frontend/src/pages/AdminDashboard.js:488-490 | every decoded key has a student id piece |
| AdminDashboard.PendingKey | frontend/src/pages/AdminDashboard.js:482 | the key `${student_id}||${term}||${session}` (also at 495 and 948) is the three fields and two double bars long |
| AdminDashboard.KeyRoundTrip | frontend/src/pages/AdminDashboard.js:482-490 | decoding a key gives back its student, term and session when the fields hold no double bar and the first two do not end in a bar |
| AdminDashboard.TrailingBarBreaksKey | frontend/src/pages/AdminDashboard.js:482-490 | the key of student `7` followed by a bar decodes as student `7`, term `1st` after a bar |
| AdminDashboard.SameKeySameTerm | frontend/src/pages/AdminDashboard.js:482-495 | well-formed lines share a key exactly when they share student, term and session |
| AdminDashboard.SelectAll | frontend/src/pages/AdminDashboard.js:478-484 | a selection as long as the pending list is cleared; otherwise it becomes the keys of all lines in order |
| AdminDashboard.SelectAllTwice | frontend/src/pages/AdminDashboard.js:478-484 | select-all twice clears the selection |
| AdminDashboard.StaleSelectionClears | frontend/src/pages/AdminDashboard.js:465-484 | a stale key left by a single approval makes select-all clear instead of selecting the remaining line |
| AdminDashboard.Unapproved | frontend/src/pages/AdminDashboard.js:465-467 | keeps exactly the lines not matching the approved student, term and session |
| AdminDashboard.Remaining | frontend/src/pages/AdminDashboard.js:495 | keeps exactly the lines whose key is not selected |
| AdminDashboard.SingleAndBulkAgree | frontend/src/pages/AdminDashboard.js:465-495 | approving one line and approving a selection of its key leave the same list |
| AdminDashboard.ApproveAllEmpties | frontend/src/pages/AdminDashboard.js:478-495 | approving everything select-all chose empties the list |
| AdminDashboard.RemainingAllSelected | frontend/src/pages/AdminDashboard.js:495 | nothing remains when every pending line's key is selected |
| AdminDashboard.ApprovalPanel.constructor | frontend/src/pages/AdminDashboard.js:47-73 | empty selection and class list, modal closed |
| AdminDashboard.ApprovalPanel.ClassCheckbox | frontend/src/pages/AdminDashboard.js:396-398 | toggles the class id and changes nothing else |
| AdminDashboard.ApprovalPanel.ToggleSelectPending | frontend/src/pages/AdminDashboard.js:474-476 | toggles the key and changes nothing else |
| AdminDashboard.ApprovalPanel.ToggleSelectAllPending | frontend/src/pages/AdminDashboard.js:478-484 | the selection becomes the select-all result |
| AdminDashboard.ApprovalPanel.ApproveResults | frontend/src/pages/AdminDashboard.js:462-472 | once accepted, the matching lines go and the modal closes; the selection stays; a failure changes nothing |
| AdminDashboard.ApprovalPanel.ApproveSelected | frontend/src/pages/AdminDashboard.js:486-503 | nothing for an empty selection. Otherwise the decoded keys are sent, and once accepted the selected lines go and the selection clears |
| AdminDashboard.NumberOrZero | frontend/src/pages/AdminDashboard.js:798 | `Number(x or 0)` is NaN exactly for non-numeric text, otherwise the number or 0 |
| AdminDashboard.HistoryRowTotal | frontend/src/pages/AdminDashboard.js:798 | NaN exactly when a part is non-numeric text, otherwise the report card's subject total |
| AdminDashboard.OrZero | frontend/src/pages/AdminDashboard.js:233-234 | an absent or empty mark becomes 0 and counts the same |
| AdminDashboard.ManualRequest | frontend/src/pages/AdminDashboard.js:224-235 | nothing sent without a class; otherwise the form with absent or empty CA marks as 0 and every other field as entered |
| AdminDashboard.ManualFillKeepsTotal | frontend/src/pages/AdminDashboard.js:233-234 | the zero fill-in does not change the subject total |

## Left out

- **PDF drawing.** Every pdfkit call is left out: text, rectangles, lines, rotation, images, opacity and fonts. The model keeps the numbers fed to them: coordinates, widths, heights and the page-break flag.
- **Text measurement.** `heightOfString` is measured by the library, so the remark text heights are parameters.
- **The extra section image.** Its advance of half the usable width is modelled; whether it was drawn is a parameter.
- **Database access.** Queries become input sequences of records, including the filters they apply.
  - **Approved-only filter.** The report's own results and the classmates' results are the approved rows for the term.
  - **Class rows for subject statistics.** These include unapproved rows.
- **File probing.** The logo and photo existence checks are I/O, as are the environment variable and path candidates. The watermark and the logo are left out with them.
- **HTTP and React plumbing.** Routing, response piping, axios calls, hooks, `localStorage`, scrolling, polling and alerts are left out. A request's outcome is a parameter.
- **Integer scores.** Scores are integers, or text that is blank or not a number. Fractional marks are not modelled, and neither are numeric strings such as "07".
- **Double arithmetic.** Doubles are modelled as exact reals.
  - The exact double rounding of `toFixed` and `Math.round` is not modelled.
  - The string `toFixed` returns is modelled by the value it denotes.
  - For negative values, `toFixed` here rounds halves away from zero on the magnitude.
- Numbers.ToFixed: states the rounding on exact reals, not on the binary double nearest to the input.
- ReportCard.TermAverage: is within 0.005 of the exact mean; it says nothing about float formatting.
- StudentDashboard.DashboardAverage: is within 0.05 of the exact mean. The string-to-number comparison in the remark is read as a comparison of the rounded value.
- AdminDashboard.GroupHistory: states insertion order. JavaScript objects list integer-like keys first, in ascending order; that reordering is not modelled, so the order is right for ids that are not integer-like.
- Records.GroupByStudentCorrect: states insertion order, with the same caveat about integer-like keys.
- **Static content.** The static text of the report card is left out, including the grading key's letter and range strings, the head teacher's remark and the school header. Only the positions of the key's seven rows are modelled.
- **Catch paths.** The `catch` paths of the report route are not modelled. They cover a failed cohort query, which keeps '0.00', and a failed earlier-term query, which keeps empty maps.
- **`teacherRemark || "No remark provided."`** is not modelled.
- **Character tables.** Their labels and rating captions are text only.
- **Passport box.** The photo in the passport box is an image and is left out.
- **Manual-entry form reset.** The reset after a successful manual entry is view state only.
- **Other pages and scripts.** These are UI, routing or configuration only, and are left out:
  - the public website, login and upload pages;
  - the application shell;
  - the Tailwind configuration;
  - the colour-replacement script.
