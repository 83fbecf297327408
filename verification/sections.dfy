/** The `Section` interface of `internal/utils/section.go`, as a tagged union
    over the two kinds of section the bot defines. */
module Sections {
  import opened Wrappers
  import opened Strings
  import CourseModel
  import Fetcher

  datatype Section =
    | CourseSection(course: CourseModel.Course)
    | CourseTypeSection(block: Fetcher.CourseTypeBlock)

  /** The name through the interface: a course header or a course-type header. */
  function GetSectionName(s: Section): (r: string)
    ensures s.CourseSection? ==>
      && HasPrefix(r, CourseModel.NamePrefix) && HasSuffix(r, "**")
      && |r| == |s.course.courseNumber| + 12
      && r[10..|r| - 2] == s.course.courseNumber
    ensures s.CourseTypeSection? ==> HasPrefix(r, "Course Type: ") && r[13..] == s.block.title
  {
    match s
    case CourseSection(c) => CourseModel.GetSectionName(c)
    case CourseTypeSection(b) => Fetcher.GetSectionName(b)
  }

  /** The inline flag through the interface: a course's stored flag; never for a block. */
  function GetSectionInline(s: Section): (r: bool)
    ensures s.CourseSection? ==> (r <==> s.course.isInLine)
    ensures s.CourseTypeSection? ==> !r
  {
    match s
    case CourseSection(c) => CourseModel.GetSectionInline(c)
    case CourseTypeSection(b) => Fetcher.GetSectionInline(b)
  }

  /** `SetInLine` through the interface: a course takes the flag, a course-type
      block refuses (Go panics). */
  function SetInLine(s: Section, isInLine: bool): (r: Result<Section, string>)
    ensures r.Success? <==> s.CourseSection?
    ensures r.Success? ==> GetSectionInline(r.value) == isInLine
    ensures r.Success? ==> GetSectionName(r.value) == GetSectionName(s)
    ensures r.Failure? ==> r.error == Fetcher.InlineUnsupported
    ensures s.CourseSection? ==> r == Success(CourseSection(s.course.(isInLine := isInLine)))
  {
    match s
    case CourseSection(c) => Success(CourseSection(CourseModel.SetInLine(c, isInLine)))
    case CourseTypeSection(b) =>
      match Fetcher.SetInLine(b, isInLine)
      case Success(b') => Success(CourseTypeSection(b'))
      case Failure(e) => Failure(e)
  }

  /** Setting the flag twice is the same as setting it once to the second value. */
  lemma SetInLineTwice(s: Section, first: bool, second: bool)
    requires SetInLine(s, first).Success?
    ensures SetInLine(SetInLine(s, first).value, second) == SetInLine(s, second)
  {
  }
}
