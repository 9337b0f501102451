/**
 * GetGrade: a letter-grade message for a score, or null. Every score
 * below 70, negative ones included, is an F; only a score above 100 has
 * no grade.
 */
module Grades {
  import opened Wrappers

  const GradeA := "your grade is A"
  const GradeB := "your grade is B"
  const GradeC := "your grade is C"
  const GradeF := "your grade is F"

  function GetGrade(score: int): (r: Option<string>)
    ensures r == Some(GradeA) <==> 90 <= score <= 100
    ensures r == Some(GradeB) <==> 80 <= score < 90
    ensures r == Some(GradeC) <==> 70 <= score < 80
    ensures r == Some(GradeF) <==> score < 70
    ensures r.None? <==> score > 100
  {
    if score >= 90 && score <= 100 then Some(GradeA)
    else if score < 90 && score >= 80 then Some(GradeB)
    else if score < 80 && score >= 70 then Some(GradeC)
    else if score < 70 then Some(GradeF)
    else None
  }

  /** The order of the grades, F lowest; no grade ranks below F. */
  function Rank(g: Option<string>): int
  {
    if g == Some(GradeA) then 3
    else if g == Some(GradeB) then 2
    else if g == Some(GradeC) then 1
    else if g == Some(GradeF) then 0
    else -1
  }

  /** Up to 100, a higher score never gets a lower grade. */
  lemma GradeMonotone(low: int, high: int)
    requires low <= high <= 100
    ensures 0 <= Rank(GetGrade(low)) <= Rank(GetGrade(high))
  {
  }
}
