/**
 * controllers/EntryController.java: the course-entry form, its validation,
 * the list of entered courses and the rule that enables Calculate.
 */
module Entry {
  import opened Wrappers
  import opened JavaString
  import opened Courses
  import opened GpaCalculator

  /** Double.parseDouble, left abstract: None stands for a NumberFormatException. */
  type Parser = string -> Option<real>

  /** The form as handleAdd reads it: five text fields and the grade selection. */
  datatype Form = Form(
    name: string,
    code: string,
    credit: string,
    teacher1: string,
    teacher2: string,
    grade: Option<string>)

  /** The alert each early return of handleAdd shows. */
  datatype Rejection =
    | MissingField           // "Please fill course name, code, credit and select grade."
    | CodeHasSpace           // "Course code cannot contain spaces."
    | CodeNotFourDigits      // "Course code must end with exactly 4 digits."
    | MultipleDecimalPoints  // "Credit cannot have multiple decimal points."
    | InvalidNumber          // "Invalid credit format."
    | NonPositiveCredit      // "Credit must be a positive number."

  datatype Checked = Accepted(course: Course) | Rejected(reason: Rejection)

  predicate FieldsPresent(f: Form) {
    Trim(f.name) != [] && Trim(f.code) != [] && Trim(f.credit) != [] && f.grade.Some?
  }

  predicate CodeWellFormed(code: string) {
    ' ' !in code && MatchesFourDigitSuffix(code)
  }

  /**
   * handleAdd's checks, in the order the handler makes them, on the trimmed
   * texts; the course is built from the trimmed texts and the parsed credit.
   */
  function CheckCourse(f: Form, parse: Parser): (r: Checked)
    ensures r == Rejected(MissingField) <==> !FieldsPresent(f)
    ensures r == Rejected(CodeHasSpace) <==> FieldsPresent(f) && ' ' in Trim(f.code)
    ensures r.Accepted? <==>
      && FieldsPresent(f) && CodeWellFormed(Trim(f.code))
      && CountChar(Trim(f.credit), '.') <= 1
      && parse(Trim(f.credit)).Some? && parse(Trim(f.credit)).value > 0.0
    ensures r.Accepted? ==>
      r.course == Course(Trim(f.name), Trim(f.code), parse(Trim(f.credit)).value,
                         Trim(f.teacher1), Trim(f.teacher2), f.grade)
  {
    var name, code, creditText := Trim(f.name), Trim(f.code), Trim(f.credit);
    if name == [] || code == [] || creditText == [] || f.grade.None? then Rejected(MissingField)
    else if ' ' in code then Rejected(CodeHasSpace)
    else if !MatchesFourDigitSuffix(code) then Rejected(CodeNotFourDigits)
    else if CountChar(creditText, '.') > 1 then Rejected(MultipleDecimalPoints)
    else match parse(creditText)
      case None => Rejected(InvalidNumber)
      case Some(credit) =>
        if credit <= 0.0 then Rejected(NonPositiveCredit)
        else Accepted(Course(name, code, credit, Trim(f.teacher1), Trim(f.teacher2), f.grade))
  }

  /**
   * What an accepted course looks like: a non-empty name and code without
   * surrounding blanks, a code without spaces that the pattern
   * `.*\d{4}$` matches as a whole,
   * a positive credit and a selected grade.
   */
  lemma AcceptedCourseWellFormed(f: Form, parse: Parser)
    requires CheckCourse(f, parse).Accepted?
    ensures var c := CheckCourse(f, parse).course;
      && c.name != [] && Trim(c.name) == c.name
      && c.code != [] && Trim(c.code) == c.code && CodeWellFormed(c.code)
      && MatchesPattern(c.code)
      && c.credit > 0.0 && c.grade.Some?
  {
    TrimIdempotent(f.name);
    TrimIdempotent(f.code);
    FourDigitSuffixIsPattern(Trim(f.code));
  }

  /** The suffix check is not "exactly four": a longer digit run passes too. */
  lemma LongerDigitRunPasses()
    ensures CodeWellFormed("CSE12345")
  {
  }

  /** Only U+0020 counts as a space: a tab inside the code passes both code checks. */
  lemma TabPassesCodeChecks()
    ensures CodeWellFormed("CSE\t2200")
  {
  }

  /** A line break before the digits fails the suffix check: '.' does not match it. */
  lemma LineBreakFailsSuffix()
    ensures !MatchesFourDigitSuffix("CSE\n2200")
  {
    assert "CSE\n2200"[3] == '\n';
  }

  /** parseTarget: the parsed trimmed target text, or -1 when it does not parse. */
  function ParseTarget(text: string, parse: Parser): real {
    match parse(Trim(text))
    case None => -1.0
    case Some(t) => t
  }

  /** updateCalcButton's rule: enabled when target > 0 and 0 < total credits <= target. */
  function CalcRule(text: string, cs: seq<Course>, parse: Parser): bool {
    var target := ParseTarget(text, parse);
    if target <= 0.0 then false
    else
      var sum := TotalCredits(cs);
      sum > 0.0 && sum <= target
  }

  /**
   * Calculate is enabled exactly when the target parses to a positive t and
   * the total credit is positive and at most t; an unparsable target never
   * enables it.
   */
  lemma CalcRuleMeaning(text: string, cs: seq<Course>, parse: Parser)
    ensures CalcRule(text, cs, parse) <==>
      (exists t :: parse(Trim(text)) == Some(t) && t > 0.0 && 0.0 < TotalCredits(cs) <= t)
  {
    if CalcRule(text, cs, parse) {
      var t := parse(Trim(text)).value;
      assert parse(Trim(text)) == Some(t);
    }
  }

  /** With no courses Calculate is never enabled. */
  lemma NoCoursesNoCalc(text: string, parse: Parser)
    ensures !CalcRule(text, [], parse)
  {
  }

  /** onTargetChanged enables the form for a non-blank target that parses to a positive value. */
  predicate TargetAccepted(text: string, parse: Parser) {
    Trim(text) != [] && parse(Trim(text)).Some? && parse(Trim(text)).value > 0.0
  }

  /**
   * The calculate button after onTargetChanged as written: only an accepted
   * target reaches updateCalcButton; the other paths return early and leave
   * the button as it was.
   */
  function CalcAfterTargetChangeAsWritten(text: string, cs: seq<Course>, before: bool, parse: Parser): (enabled: bool)
    ensures TargetAccepted(text, parse) ==> enabled == CalcRule(text, cs, parse)
    ensures !TargetAccepted(text, parse) ==> enabled == before
  {
    if TargetAccepted(text, parse) then CalcRule(text, cs, parse) else before
  }

  /**
   * With target "20" and one 3-credit course Calculate is enabled; clearing
   * the target leaves it enabled although the rule now disables it.
   */
  lemma StaleCalcButton(parse: Parser, c: Course)
    requires parse("20") == Some(20.0) && parse([]) == None
    requires c.credit == 3.0
    ensures CalcRule("20", [c], parse)
    ensures CalcAfterTargetChangeAsWritten("", [c], CalcRule("20", [c], parse), parse)
    ensures !CalcRule("", [c], parse)
  {
    TrimIdempotent("20");
    TrimUnique("20", [], "20", []);
    assert [] + "20" + [] == "20";
    assert [c][..0] == [];
    assert TotalCredits([c]) == Sum([], Credit) + c.credit == 3.0;
  }

  /** The entry screen's state; the form fields themselves are inputs to the handlers. */
  class EntryController {
    const parse: Parser
    var targetText: string
    var courses: seq<Course>
    var formEnabled: bool
    var calcEnabled: bool

    /** Calculate follows the rule, and every entered course has a positive credit. */
    predicate Valid()
      reads this
    {
      calcEnabled == CalcRule(targetText, courses, parse) && AllCreditsPositive(courses)
    }

    /** initialize(): no courses, the form and Calculate disabled. */
    constructor (parse: Parser)
      ensures this.parse == parse && targetText == [] && courses == []
      ensures !formEnabled && !calcEnabled
      ensures Valid()
    {
      this.parse := parse;
      targetText := [];
      courses := [];
      formEnabled := false;
      calcEnabled := false;
    }

    method UpdateCalcButton()
      modifies this
      ensures calcEnabled == CalcRule(targetText, courses, parse)
      ensures targetText == old(targetText) && courses == old(courses) && formEnabled == old(formEnabled)
    {
      var target := ParseTarget(targetText, parse);
      if target <= 0.0 {
        calcEnabled := false;
        return;
      }
      var sum := TotalCredits(courses);
      calcEnabled := sum > 0.0 && sum <= target;
    }

    /**
     * The target field's listener, with Calculate re-evaluated on every
     * path; the form is enabled only for an accepted target.
     */
    method OnTargetChanged(text: string)
      requires Valid()
      modifies this
      ensures targetText == text && courses == old(courses)
      ensures formEnabled == TargetAccepted(text, parse)
      ensures Valid()
    {
      targetText := text;
      formEnabled := TargetAccepted(text, parse);
      UpdateCalcButton();
    }

    /** handleAdd: append the checked course at the end, or change nothing. */
    method HandleAdd(f: Form) returns (result: Checked)
      requires Valid()
      modifies this
      ensures result == CheckCourse(f, parse)
      ensures result.Accepted? ==> courses == old(courses) + [result.course]
      ensures result.Rejected? ==> courses == old(courses) && calcEnabled == old(calcEnabled)
      ensures targetText == old(targetText) && formEnabled == old(formEnabled)
      ensures Valid()
    {
      result := CheckCourse(f, parse);
      if result.Rejected? {
        return;
      }
      AcceptedCourseWellFormed(f, parse);
      courses := courses + [result.course];
      UpdateCalcButton();
    }

    /** The Delete button of row i. */
    method DeleteCourse(i: nat)
      requires Valid() && i < |courses|
      modifies this
      ensures courses == old(courses[..i] + courses[i + 1..])
      ensures targetText == old(targetText) && formEnabled == old(formEnabled)
      ensures Valid()
    {
      courses := courses[..i] + courses[i + 1..];
      UpdateCalcButton();
    }

    /** The Edit button of row i: the course goes back into the form and leaves the list. */
    method EditCourse(i: nat) returns (editing: Course)
      requires Valid() && i < |courses|
      modifies this
      ensures editing == old(courses[i])
      ensures courses == old(courses[..i] + courses[i + 1..])
      ensures targetText == old(targetText) && formEnabled == old(formEnabled)
      ensures Valid()
    {
      editing := courses[i];
      courses := courses[..i] + courses[i + 1..];
      UpdateCalcButton();
    }
  }

  /**
   * The list handleCalculate hands to the result screen always has a GPA
   * in [0, 4]: the controller only ever holds positive-credit courses.
   */
  lemma EnteredGpaBounded(c: EntryController)
    requires c.Valid()
    ensures 0.0 <= GpaOf(c.courses) <= 4.0
  {
    GpaBounded(c.courses);
  }
}
