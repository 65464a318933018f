/** One graded course: immutable value data. */
module Courses {
  import opened Wrappers

  /**
   * Course.java: six final fields. The grade is a Java String and may be
   * null; the two instructor fields are never interpreted by the core.
   */
  datatype Course = Course(
    name: string,
    code: string,
    credit: real,
    teacher1: string,
    teacher2: string,
    grade: Option<string>)
}
