/**
  The student's dashboard: the summary figures above the result table (grand total,
  average to one place and a remark), the colour class of a grade, and the address the
  student's photo is loaded from. It shows the same approved results the report card
  prints, and decides whether to show the grade column with the same `hasExam` test.
 */
module StudentDashboard {
  import opened Numbers
  import opened Records
  import opened Grading
  import Text
  import ReportCard


  /** `gradeColor`: a colour class for the single letters A, B, C, D and F, none otherwise. */
  function GradeColor(grade: string): (cls: string)
    ensures cls != "" <==> grade in ["A", "B", "C", "D", "F"]
  {
    if grade == "A" then "text-green-600 font-bold"
    else if grade == "B" then "text-green-500 font-bold"
    else if grade == "C" then "text-yellow-600 font-bold"
    else if grade == "D" then "text-orange-600 font-bold"
    else if grade == "F" then "text-red-600 font-bold"
    else ""
  }

  /** The grades the school records are two-character codes, so none of them is coloured. */
  lemma NoCodeIsColoured(b: Band)
    ensures GradeColor(Code(b)) == ""
  {
  }

  /** `average`: the grand total over the number of results to one place, or 0 without results. */
  function DashboardAverage(results: seq<ScoreRecord>): (avg: real)
    ensures results == [] ==> avg == 0.0
    ensures results != [] ==>
      var mean := GrandTotal(results) as real / |results| as real;
      mean - 0.05 <= avg <= mean + 0.05
  {
    if |results| > 0 then ToFixed(GrandTotal(results) as real / |results| as real, 10) else 0.0
  }

  /** The remark under the average: 'Excellent' from 70, 'Good' from 50, else
      'Needs Improvement'. */
  function Remark(average: real): (r: string)
    ensures r == "Excellent" <==> average >= 70.0
    ensures r == "Good" <==> 50.0 <= average < 70.0
    ensures r == "Needs Improvement" <==> average < 50.0
  {
    if average >= 70.0 then "Excellent" else if average >= 50.0 then "Good" else "Needs Improvement"
  }

  /** The dashboard's figures agree with the report card's: the same grand total, and an
      average within 0.055 of the report's two-place average (both round the same mean). */
  lemma AgreesWithReportCard(results: seq<ScoreRecord>)
    ensures results == [] ==> DashboardAverage(results) == ReportCard.TermAverage(results)
    ensures results != [] ==>
      -0.055 <= DashboardAverage(results) - ReportCard.TermAverage(results) <= 0.055
  {
  }

  /** The remark is read off the rounded average: a mean of 69.96 shows 70.0 and 'Excellent'. */
  lemma RemarkUsesRoundedAverage()
    ensures ToFixed(69.96, 10) == 70.0 && Remark(ToFixed(69.96, 10)) == "Excellent"
    ensures Remark(69.96) == "Good"
  {
    assert (69.96 * 10.0 + 0.5).Floor == 700;
  }

  /** A higher average never gets a lower remark. */
  lemma RemarkMonotone(x: real, y: real)
    requires x <= y
    ensures Remark(x) == "Excellent" ==> Remark(y) == "Excellent"
    ensures Remark(y) == "Needs Improvement" ==> Remark(x) == "Needs Improvement"
  {
  }

  /** Where uploads are served from. */
  const UploadBase: string := "http://localhost:5000/"

  /** s with one leading occurrence of prefix removed, when it starts with it. */
  function DropPrefix(s: string, prefix: string): (r: string)
    ensures prefix <= s ==> s == prefix + r
    ensures !(prefix <= s) ==> r == s
  {
    if prefix <= s then s[|prefix|..] else s
  }

  /** Whether a trimmed path is already an absolute web address. */
  predicate IsWebAddress(t: string)
  {
    "http://" <= t || "https://" <= t
  }

  /** `resolvePhotoUrl`: no address for a missing or empty path; a web address is used as
      it is after trimming; any other path is served from the upload base after dropping
      one leading `backend/` and then one leading `/`. */
  function ResolvePhotoUrl(photoPath: Option<string>): (url: Option<string>)
    ensures url.None? <==> photoPath.None? || photoPath.value == ""
    ensures url.Some? && IsWebAddress(Text.Trim(photoPath.value)) ==> url.value == Text.Trim(photoPath.value)
    ensures url.Some? && !IsWebAddress(Text.Trim(photoPath.value)) ==>
      url.value == UploadBase + DropPrefix(DropPrefix(Text.Trim(photoPath.value), "backend/"), "/")
  {
    if photoPath.None? || photoPath.value == "" then None
    else
      var trimmed := Text.Trim(photoPath.value);
      if IsWebAddress(trimmed) then Some(trimmed)
      else
        var p := DropPrefix(trimmed, "backend/");
        var p' := if "/" <= p then p[1..] else p;
        Some(UploadBase + p')
  }

  /** A trimmed non-empty path resolves without trimming anything. */
  lemma ResolveTrimmed(t: string)
    requires t != [] && Text.Trim(t) == t
    ensures ResolvePhotoUrl(Some(t))
      == Some(if IsWebAddress(t) then t else UploadBase + DropPrefix(DropPrefix(t, "backend/"), "/"))
  {
  }

  /** The three stored forms the function is written for, `backend/uploads/...`,
      `/uploads/...` and `uploads/...`, all resolve to the same address. */
  lemma StoredFormsAgree(q: string)
    requires q != [] && Text.Trim(q) == q
    requires !("/" <= q) && !("backend/" <= q) && !IsWebAddress(q)
    ensures ResolvePhotoUrl(Some(q)) == Some(UploadBase + q)
    ensures ResolvePhotoUrl(Some("/" + q)) == Some(UploadBase + q)
    ensures ResolvePhotoUrl(Some("backend/" + q)) == Some(UploadBase + q)
  {
    ResolveTrimmed(q);
    LastNotWhitespace(q);
    SlashForm(q);
    BackendForm(q);
  }

  /** `/` + q loses exactly its slash. */
  lemma SlashForm(q: string)
    requires q != [] && !Text.IsWhitespace(q[|q| - 1])
    ensures ResolvePhotoUrl(Some("/" + q)) == Some(UploadBase + q)
  {
    SlashDropped("/" + q, q);
    PrefixedForm("/", q);
  }

  /** `backend/` + q loses exactly its `backend/` when q does not start with a slash. */
  lemma BackendForm(q: string)
    requires q != [] && !Text.IsWhitespace(q[|q| - 1]) && !("/" <= q)
    ensures ResolvePhotoUrl(Some("backend/" + q)) == Some(UploadBase + q)
  {
    BackendDropped("backend/" + q, q);
    PrefixedForm("backend/", q);
  }

  /** A path made of a prefix that the function drops and a trimmed rest resolves to the
      rest under the upload base. */
  lemma PrefixedForm(prefix: string, q: string)
    requires prefix != [] && !Text.IsWhitespace(prefix[0])
    requires q != [] && !Text.IsWhitespace(q[|q| - 1])
    requires !IsWebAddress(prefix + q) && DropPrefix(DropPrefix(prefix + q, "backend/"), "/") == q
    ensures ResolvePhotoUrl(Some(prefix + q)) == Some(UploadBase + q)
  {
    TrimmedAfterPrefix(prefix, q);
    ResolveTrimmed(prefix + q);
  }

  /** A path `/` + q is not a web address and loses only its slash. */
  lemma SlashDropped(s: string, q: string)
    requires s == "/" + q
    ensures !IsWebAddress(s)
    ensures DropPrefix(DropPrefix(s, "backend/"), "/") == q
  {
    assert s[0] == '/' && "backend/"[0] == 'b' && "http://"[0] == 'h' && "https://"[0] == 'h';
    assert DropPrefix(s, "backend/") == s;
    assert s[1..] == q;
  }

  /** A path `backend/` + q, where q does not start with a slash, is not a web address and
      loses only its `backend/`. */
  lemma BackendDropped(s: string, q: string)
    requires s == "backend/" + q && !("/" <= q)
    ensures !IsWebAddress(s)
    ensures DropPrefix(DropPrefix(s, "backend/"), "/") == q
  {
    assert s[0] == 'b' && "http://"[0] == 'h' && "https://"[0] == 'h';
    assert s[|"backend/"|..] == q;
    assert DropPrefix(s, "backend/") == q;
  }

  /** A trimmed non-empty string does not end in whitespace. */
  lemma LastNotWhitespace(q: string)
    requires q != [] && Text.Trim(q) == q
    ensures !Text.IsWhitespace(q[|q| - 1])
  {
    Text.TrimIsMiddle(q);
  }

  /** A non-empty prefix without whitespace at its start, put before a trimmed non-empty
      string, gives a trimmed string. */
  lemma TrimmedAfterPrefix(prefix: string, q: string)
    requires prefix != [] && !Text.IsWhitespace(prefix[0])
    requires q != [] && !Text.IsWhitespace(q[|q| - 1])
    ensures Text.Trim(prefix + q) == prefix + q
  {
    var s := prefix + q;
    assert s[0] == prefix[0] && s[|s| - 1] == q[|q| - 1];
    Text.TrimFixed(s);
  }

  /** Resolving an address again changes nothing: the result is trimmed and starts with
      `http://`, so it is passed through as it is. */
  lemma ResolveIdempotent(photoPath: Option<string>)
    ensures ResolvePhotoUrl(photoPath).Some? ==> ResolvePhotoUrl(ResolvePhotoUrl(photoPath)) == ResolvePhotoUrl(photoPath)
  {
    var url := ResolvePhotoUrl(photoPath);
    if url.Some? {
      var u := url.value;
      ResultTrimmed(photoPath.value);
      assert u != [];
      ResolveTrimmed(u);
    }
  }

  /** Every address the function gives is trimmed and is a web address. */
  lemma ResultTrimmed(s: string)
    requires s != ""
    ensures var u := ResolvePhotoUrl(Some(s)).value; Text.Trim(u) == u && u != [] && IsWebAddress(u)
  {
    var u := ResolvePhotoUrl(Some(s)).value;
    var t := Text.Trim(s);
    Text.TrimIsMiddle(s);
    if IsWebAddress(t) {
      Text.TrimFixed(t);
    } else {
      var p := DropPrefix(DropPrefix(t, "backend/"), "/");
      assert u == UploadBase + p;
      assert "http://" <= u by {
        assert UploadBase[..7] == "http://";
      }
      if p == [] {
        assert u == UploadBase;
        assert u[0] == 'h' && u[|u| - 1] == '/';
        Text.TrimFixed(u);
      } else {
        SuffixKeepsEnd(t, p);
        TrimmedAfterPrefix(UploadBase, p);
      }
    }
  }

  /** Dropping prefixes keeps the end of a string. */
  lemma SuffixKeepsEnd(t: string, p: string)
    requires p == DropPrefix(DropPrefix(t, "backend/"), "/")
    requires p != [] && (t == [] || !Text.IsWhitespace(t[|t| - 1]))
    ensures !Text.IsWhitespace(p[|p| - 1])
  {
    var p1 := DropPrefix(t, "backend/");
    assert p1 != [] && p1[|p1| - 1] == t[|t| - 1];
    assert p[|p| - 1] == p1[|p1| - 1];
  }

  /** A path of blanks is not empty, so it resolves to the upload base itself. */
  lemma BlankPathResolvesToBase()
    ensures ResolvePhotoUrl(Some("  ")) == Some(UploadBase)
  {
    assert "  "[1..] == " " && " "[1..] == "";
    assert Text.TrimStart("  ") == "";
    assert Text.Trim("  ") == "";
    assert UploadBase + "" == UploadBase;
  }
}
