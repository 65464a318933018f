/** model/GpaSummary.java: one saved GPA result, as a value and as the mutable record. */
module Summaries {
  import opened Courses

  /** The observable state of one GpaSummary object. */
  datatype Summary = Summary(id: int, gpa: real, credits: real, timestamp: string, courses: seq<Course>)

  /** The record itself: five fields, two constructors and a setter per field. */
  class GpaSummary {
    var id: int
    var gpa: real
    var credits: real
    var timestamp: string
    var courses: seq<Course>

    function Value(): Summary
      reads this
    {
      Summary(id, gpa, credits, timestamp, courses)
    }

    /**
     * The constructor for a summary that is not yet stored: the id keeps
     * Java's default 0 and the timestamp is the formatted clock reading `now`.
     */
    constructor New(gpa: real, credits: real, now: string)
      ensures Value() == Summary(0, gpa, credits, now, [])
    {
      this.id := 0;
      this.gpa := gpa;
      this.credits := credits;
      this.timestamp := now;
      this.courses := [];
    }

    /** The constructor used when reading a stored row: the courses start empty. */
    constructor Load(id: int, gpa: real, credits: real, timestamp: string)
      ensures Value() == Summary(id, gpa, credits, timestamp, [])
    {
      this.id := id;
      this.gpa := gpa;
      this.credits := credits;
      this.timestamp := timestamp;
      this.courses := [];
    }

    method SetId(id: int)
      modifies this
      ensures Value() == old(Value()).(id := id)
    {
      this.id := id;
    }

    method SetGpa(gpa: real)
      modifies this
      ensures Value() == old(Value()).(gpa := gpa)
    {
      this.gpa := gpa;
    }

    method SetCredits(credits: real)
      modifies this
      ensures Value() == old(Value()).(credits := credits)
    {
      this.credits := credits;
    }

    method SetTimestamp(timestamp: string)
      modifies this
      ensures Value() == old(Value()).(timestamp := timestamp)
    {
      this.timestamp := timestamp;
    }

    /** The whole course list is replaced by the given one. */
    method SetCourses(courses: seq<Course>)
      modifies this
      ensures Value() == old(Value()).(courses := courses)
    {
      this.courses := courses;
    }
  }
}
