/**
  The school's grading scale. Both the report-card PDF (`getCumulativeGrade`) and the
  teacher's grade entry (`getGrade`) use the same seven bands and the same lower bounds;
  the PDF prints the descriptive label ("B2 (Very Good)"), the dashboard the short code ("B2").
 */
module Grading {

  /** The seven bands, best first. */
  datatype Band = A1 | B2 | B3 | C6 | D7 | E8 | F9

  /** Position on the scale: 6 for A1 down to 0 for F9. */
  function Rank(b: Band): nat
  {
    match b
    case A1 => 6
    case B2 => 5
    case B3 => 4
    case C6 => 3
    case D7 => 2
    case E8 => 1
    case F9 => 0
  }

  /** Inclusive lower bound of a band; F9 takes everything below 50. */
  function LowerBound(b: Band): int
  {
    match b
    case A1 => 75
    case B2 => 70
    case B3 => 65
    case C6 => 60
    case D7 => 55
    case E8 => 50
    case F9 => 0
  }

  /** The short code shown on the teacher's dashboard. */
  function Code(b: Band): (c: string)
    ensures |c| == 2
  {
    match b
    case A1 => "A1"
    case B2 => "B2"
    case B3 => "B3"
    case C6 => "C6"
    case D7 => "D7"
    case E8 => "E8"
    case F9 => "F9"
  }

  /** The descriptive label printed on the report card. */
  function Descriptive(b: Band): (d: string)
    ensures Code(b) + " (" <= d && d[|d| - 1] == ')'
  {
    match b
    case A1 => "A1 (Excellent)"
    case B2 => "B2 (Very Good)"
    case B3 => "B3 (Good)"
    case C6 => "C6 (Credit)"
    case D7 => "D7 (Pass)"
    case E8 => "E8 (Fair)"
    case F9 => "F9 (Fail)"
  }

  /** The band of an average, checking the lower bounds from 75 downward and taking the
      first one reached: the average reaches the lower bound of a band other than F9
      exactly when the chosen band is at least that good. */
  function BandOf(avg: real): (b: Band)
    ensures forall c: Band :: c != F9 ==> (avg >= LowerBound(c) as real <==> Rank(b) >= Rank(c))
  {
    if avg >= 75.0 then A1
    else if avg >= 70.0 then B2
    else if avg >= 65.0 then B3
    else if avg >= 60.0 then C6
    else if avg >= 55.0 then D7
    else if avg >= 50.0 then E8
    else F9
  }

  /** A higher average never gets a worse band. */
  lemma BandOfMonotone(x: real, y: real)
    requires x <= y
    ensures Rank(BandOf(x)) <= Rank(BandOf(y))
  {
  }

  /** The band is determined by its rank, so the two renderings are renderings of one scale:
      the short code begins the descriptive label and different bands print differently. */
  lemma RenderingsAgree(b: Band, c: Band)
    ensures Code(b) <= Descriptive(b)
    ensures b != c ==> Code(b) != Code(c) && Descriptive(b) != Descriptive(c)
    ensures b != c ==> Rank(b) != Rank(c)
  {
  }
}
