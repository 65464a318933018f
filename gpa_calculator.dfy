/** GpaCalculator.java: the letter-grade table and the credit-weighted GPA. */
module GpaCalculator {
  import opened Wrappers
  import opened JavaString
  import opened Courses

  /** The case labels of gradeToPoint's switch with their values; every value is an exact quarter. */
  const GradePoints: map<string, real> := map[
    "A+" := 4.0, "A" := 3.75, "A-" := 3.5,
    "B+" := 3.25, "B" := 3.0, "B-" := 2.75,
    "C+" := 2.5, "C" := 2.25, "C-" := 2.0,
    "D+" := 1.75, "D" := 1.5, "F" := 0.0]

  lemma {:induction false} PointsInRange()
    ensures forall k | k in GradePoints :: 0.0 <= GradePoints[k] <= 4.0
  {
  }

  /** The switch itself: a known label gives its value, the default case 0. */
  function PointOf(key: string): (p: real)
    ensures 0.0 <= p <= 4.0
  {
    PointsInRange();
    if key in GradePoints then GradePoints[key] else 0.0
  }

  /**
   * gradeToPoint: a null grade is worth nothing; otherwise the trimmed
   * grade selects a case of the switch.
   */
  function GradeToPoint(grade: Option<string>): (p: real)
    ensures 0.0 <= p <= 4.0
    ensures grade.None? ==> p == 0.0
  {
    match grade
    case None => 0.0
    case Some(g) => PointOf(Trim(g))
  }

  /** A grade whose trim is not a case label is worth nothing. */
  lemma UnknownGradeIsZero(g: string)
    requires Trim(g) !in GradePoints
    ensures GradeToPoint(Some(g)) == 0.0
  {
  }

  /** Every case label, written without blanks, is worth exactly its table value. */
  lemma KeyLooksUp(key: string)
    requires key in GradePoints
    ensures GradeToPoint(Some(key)) == GradePoints[key]
  {
    TrimIdempotentOnLabel(key);
  }

  /** No label starts or ends with a blank, so each is its own trim. */
  lemma TrimIdempotentOnLabel(key: string)
    requires key in GradePoints
    ensures Trim(key) == key
  {
    assert 1 <= |key| <= 2 && '+' <= key[0] && '+' <= key[|key| - 1];
    TrimUnique(key, [], key, []);
    assert [] + key + [] == key;
  }

  /** Surrounding blanks do not matter: " A " is worth what "A" is worth. */
  lemma {:induction false} GradeIgnoresPadding(pre: string, g: string, post: string)
    requires AllTrimmed(pre) && AllTrimmed(post)
    ensures GradeToPoint(Some(pre + g + post)) == GradeToPoint(Some(g))
  {
    TrimIgnoresPadding(pre, g, post);
  }

  /** A per-course quantity summed front to back, as the loops and streams of the source do. */
  function Sum(cs: seq<Course>, f: Course -> real): real
  {
    if cs == [] then 0.0 else Sum(cs[..|cs| - 1], f) + f(cs[|cs| - 1])
  }

  function Credit(c: Course): real { c.credit }

  /** Grade point times credit: one course's contribution to the quality points. */
  function QualityPoint(c: Course): real { GradeToPoint(c.grade) * c.credit }

  function TotalCredits(cs: seq<Course>): real { Sum(cs, Credit) }

  function QualityPoints(cs: seq<Course>): real { Sum(cs, QualityPoint) }

  /** The value calculateGpa computes: the weighted average, or 0 when no credits. */
  function GpaOf(cs: seq<Course>): real
  {
    if TotalCredits(cs) == 0.0 then 0.0 else QualityPoints(cs) / TotalCredits(cs)
  }

  /**
   * calculateGpa: one pass over the courses keeping the two running
   * totals, then the zero-division guard.
   */
  method CalculateGpa(courses: seq<Course>) returns (gpa: real)
    ensures TotalCredits(courses) == 0.0 ==> gpa == 0.0
    ensures TotalCredits(courses) != 0.0 ==> gpa == QualityPoints(courses) / TotalCredits(courses)
  {
    var totalQualityPoints := 0.0;
    var totalCredits := 0.0;
    for i := 0 to |courses|
      invariant totalQualityPoints == QualityPoints(courses[..i])
      invariant totalCredits == TotalCredits(courses[..i])
    {
      TotalsStep(courses, i);
      totalQualityPoints := totalQualityPoints + QualityPoint(courses[i]);
      totalCredits := totalCredits + courses[i].credit;
    }
    assert courses[..|courses|] == courses;
    if totalCredits == 0.0 {
      return 0.0;
    }
    gpa := totalQualityPoints / totalCredits;
  }

  /** Extending a prefix by one course adds that course's points and credit. */
  lemma TotalsStep(cs: seq<Course>, i: nat)
    requires i < |cs|
    ensures QualityPoints(cs[..i + 1]) == QualityPoints(cs[..i]) + QualityPoint(cs[i])
    ensures TotalCredits(cs[..i + 1]) == TotalCredits(cs[..i]) + cs[i].credit
  {
    assert cs[..i + 1][..i] == cs[..i];
  }

  predicate AllCreditsPositive(cs: seq<Course>) {
    forall i :: 0 <= i < |cs| ==> cs[i].credit > 0.0
  }

  lemma MulBound(p: real, w: real)
    requires 0.0 <= p <= 4.0 && w >= 0.0
    ensures 0.0 <= p * w <= 4.0 * w
  {
    assert (4.0 - p) * w >= 0.0;
  }

  /** One course with a non-negative credit earns between 0 and 4 points per credit. */
  lemma QualityPointBounded(c: Course)
    requires c.credit >= 0.0
    ensures 0.0 <= QualityPoint(c) <= 4.0 * c.credit
  {
    MulBound(GradeToPoint(c.grade), c.credit);
  }

  /** Per-course bounds of 0 and 4 points per credit carry over to the sums. */
  lemma {:induction false} SumBounded(cs: seq<Course>, f: Course -> real)
    requires forall i :: 0 <= i < |cs| ==> 0.0 <= cs[i].credit && 0.0 <= f(cs[i]) <= 4.0 * cs[i].credit
    ensures 0.0 <= Sum(cs, Credit)
    ensures 0.0 <= Sum(cs, f) <= 4.0 * Sum(cs, Credit)
  {
    if cs != [] {
      var init := cs[..|cs| - 1];
      assert forall i :: 0 <= i < |init| ==> init[i] == cs[i];
      SumBounded(init, f);
    }
  }

  /** With non-negative credits the quality points lie between 0 and 4 per credit. */
  lemma QualityPointsBounded(cs: seq<Course>)
    requires forall i :: 0 <= i < |cs| ==> cs[i].credit >= 0.0
    ensures 0.0 <= TotalCredits(cs)
    ensures 0.0 <= QualityPoints(cs) <= 4.0 * TotalCredits(cs)
  {
    forall i | 0 <= i < |cs| ensures 0.0 <= QualityPoint(cs[i]) <= 4.0 * cs[i].credit {
      QualityPointBounded(cs[i]);
    }
    SumBounded(cs, QualityPoint);
  }

  lemma {:induction false} CreditsPositive(cs: seq<Course>)
    requires AllCreditsPositive(cs) && cs != []
    ensures Sum(cs, Credit) > 0.0
  {
    var init := cs[..|cs| - 1];
    if init != [] {
      CreditsPositive(init);
    }
  }

  /** With only positive credits the GPA lies in [0, 4], and a non-empty list has credits. */
  lemma GpaBounded(cs: seq<Course>)
    requires AllCreditsPositive(cs)
    ensures 0.0 <= GpaOf(cs) <= 4.0
    ensures cs != [] ==> TotalCredits(cs) > 0.0
  {
    QualityPointsBounded(cs);
    if cs != [] {
      CreditsPositive(cs);
      RatioBounded(QualityPoints(cs), TotalCredits(cs));
    }
  }

  lemma RatioBounded(q: real, t: real)
    requires t > 0.0 && 0.0 <= q <= 4.0 * t
    ensures 0.0 <= q / t <= 4.0
  {
  }

  /** A sum splits over concatenation. */
  lemma {:induction false} SumAppend(a: seq<Course>, b: seq<Course>, f: Course -> real)
    ensures Sum(a + b, f) == Sum(a, f) + Sum(b, f)
  {
    if b != [] {
      var init := b[..|b| - 1];
      assert (a + b)[..|a + b| - 1] == a + init;
      SumAppend(a, init, f);
    } else {
      assert a + b == a;
    }
  }

  /** A sum does not depend on the order of the courses. */
  lemma {:induction false} SumPermutation(p: seq<Course>, q: seq<Course>, f: Course -> real)
    requires multiset(p) == multiset(q)
    ensures Sum(p, f) == Sum(q, f)
    decreases |p|
  {
    if p == [] {
      assert |q| == |multiset(q)| == 0;
    } else {
      var x, init := p[|p| - 1], p[..|p| - 1];
      assert p == init + [x];
      assert x in multiset(q);
      var k :| 0 <= k < |q| && q[k] == x;
      var rest := RemoveAt(q, k);
      MultisetCancel(multiset(init), multiset(rest), x);
      SumPermutation(init, rest, f);
      SumRemoveAt(q, k, f);
    }
  }

  function RemoveAt(q: seq<Course>, k: nat): (r: seq<Course>)
    requires k < |q|
    ensures multiset(q) == multiset(r) + multiset{q[k]}
  {
    assert q == q[..k] + [q[k]] + q[k + 1..];
    q[..k] + q[k + 1..]
  }

  lemma MultisetCancel(a: multiset<Course>, b: multiset<Course>, x: Course)
    requires a + multiset{x} == b + multiset{x}
    ensures a == b
  {
    assert a == (a + multiset{x}) - multiset{x};
    assert b == (b + multiset{x}) - multiset{x};
  }

  /** Taking one course out of a list takes its share out of the sum. */
  lemma SumRemoveAt(q: seq<Course>, k: nat, f: Course -> real)
    requires k < |q|
    ensures Sum(q, f) == Sum(RemoveAt(q, k), f) + f(q[k])
  {
    var a, x, b := SplitAt(q, k);
    SumSplit(a, x, b, f);
  }

  lemma SplitAt(q: seq<Course>, k: nat) returns (a: seq<Course>, x: Course, b: seq<Course>)
    requires k < |q|
    ensures q == a + [x] + b && x == q[k] && RemoveAt(q, k) == a + b
  {
    a, x, b := q[..k], q[k], q[k + 1..];
    assert q == a + [x] + b;
  }

  lemma SumSplit(a: seq<Course>, x: Course, b: seq<Course>, f: Course -> real)
    ensures Sum(a + [x] + b, f) == Sum(a + b, f) + f(x)
  {
    SumAppend(a + [x], b, f);
    SumAppend(a, b, f);
    assert (a + [x])[..|a + [x]| - 1] == a;
  }

  /** The GPA does not depend on the order in which the courses were entered. */
  lemma GpaOrderIndependent(p: seq<Course>, q: seq<Course>)
    requires multiset(p) == multiset(q)
    ensures GpaOf(p) == GpaOf(q)
  {
    SumPermutation(p, q, Credit);
    SumPermutation(p, q, QualityPoint);
  }
}
