/** The final grade screen of components/GradeDisplay.tsx: the score out of
    the number of questions becomes a grade from 0 to 10 rounded to one
    decimal, and the grade falls into one of five bands. Grades are kept in
    tenths, so 7.5 is 75; the translated labels, icons and colours are
    represented by the band alone. */
module GradeDisplay {
  import opened Types
  import Rounding

  datatype Band = Fail | Sufficient | Good | Notable | Outstanding

  /** Position of a band from worst to best. */
  function Level(b: Band): nat {
    match b
    case Fail => 0
    case Sufficient => 1
    case Good => 2
    case Notable => 3
    case Outstanding => 4
  }

  /** The band of a grade in tenths: below 5, 6, 7 and 9, else outstanding. */
  function BandOf(tenths: int): Band {
    if tenths < 50 then Fail
    else if tenths < 60 then Sufficient
    else if tenths < 70 then Good
    else if tenths < 90 then Notable
    else Outstanding
  }

  /** `Math.round((score / totalQuestions) * 10 * 10)`, the grade in tenths. */
  function GradeTenths(score: int, total: int): (g: int)
    requires total != 0
    ensures total > 0 ==> 2 * total * g - total <= 200 * score < 2 * total * g + total
  {
    Rounding.RoundRatio(100 * score, total)
  }

  /** The component state the effect writes: the grade and its band. Before
      the first update the grade is 0 and there is no label. */
  datatype Shown = Shown(grade: int, band: Option<Band>)

  function Initial(): Shown {
    Shown(0, None)
  }

  /** The effect: nothing changes without questions; otherwise the rounded
      grade and its band are shown. */
  function Update(s: Shown, score: int, total: int): (r: Shown)
    ensures total == 0 ==> r == s
    ensures total != 0 ==> r.grade == GradeTenths(score, total) && r.band == Some(BandOf(r.grade))
  {
    if total == 0 then s else
      var g := GradeTenths(score, total);
      Shown(g, Some(BandOf(g)))
  }

  /** The bands, stated as ranges of the grade. */
  lemma BandRanges(g: int)
    ensures BandOf(g) == Fail <==> g < 50
    ensures BandOf(g) == Sufficient <==> 50 <= g < 60
    ensures BandOf(g) == Good <==> 60 <= g < 70
    ensures BandOf(g) == Notable <==> 70 <= g < 90
    ensures BandOf(g) == Outstanding <==> 90 <= g
  {
  }

  /** A higher grade never falls in a lower band. */
  lemma BandMonotone(g1: int, g2: int)
    requires g1 <= g2
    ensures Level(BandOf(g1)) <= Level(BandOf(g2))
  {
  }

  /** With a score between 0 and the number of questions the grade lies
      between 0 and 10. */
  lemma GradeInRange(score: int, total: int)
    requires 0 <= score <= total && total > 0
    ensures 0 <= GradeTenths(score, total) <= 100
  {
    Rounding.RoundDivScaledFraction(score, total, 100);
  }

  /** More correct answers out of the same number of questions never give a
      lower grade or a lower band. */
  lemma ScoreMonotone(s1: int, s2: int, total: int)
    requires s1 <= s2 && total > 0
    ensures GradeTenths(s1, total) <= GradeTenths(s2, total)
    ensures Level(BandOf(GradeTenths(s1, total))) <= Level(BandOf(GradeTenths(s2, total)))
  {
    Rounding.RoundDivMonotone(100 * s1, 100 * s2, total);
    BandMonotone(GradeTenths(s1, total), GradeTenths(s2, total));
  }

  /** Every answer right gives 10 and the top band; none right gives 0 and a fail. */
  lemma Extremes(total: int)
    requires total > 0
    ensures Update(Initial(), total, total) == Shown(100, Some(Outstanding))
    ensures Update(Initial(), 0, total) == Shown(0, Some(Fail))
  {
    Rounding.RoundDivExact(100, total);
    Rounding.RoundDivExact(0, total);
  }
}
