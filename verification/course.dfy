/** The pure parts of `internal/model/course.go`: the course record, its section
    accessors, the validity guard at the end of a fetch, and the saved-file name
    filtering. */
module CourseModel {
  import opened Wrappers
  import opened Strings

  /** One course as scraped from the catalog. Most text fields are the trimmed
      text of a table cell. The exceptions are `courseNumber` (the number the
      fetch was asked for), `title` (the information box heading), `courseType`
      (the trimmed span texts joined by ", "), `prerequisites` (joined link
      texts) and `website` (a trimmed link target). `fetchTime` stands for Go's
      `time.Time`. */
  datatype Course = Course(
    courseNumber: string,
    title: string,
    englishTitle: string,
    language: string,
    ects: string,
    courseType: string,
    schedule: string,
    location: string,
    teachingFormat: string,
    duration: string,
    examPlacement: string,
    evaluation: string,
    examDuration: string,
    allowedMaterials: string,
    gradingScale: string,
    pointReference: string,
    prerequisites: string,
    courseResponsible: string,
    coResponsible: string,
    institute: string,
    website: string,
    isInLine: bool,
    fetchTime: int)

  const NamePrefix := "**Course: "

  /** `GetSectionName`: the course number in bold after a fixed label. */
  function GetSectionName(c: Course): (r: string)
    ensures HasPrefix(r, NamePrefix) && HasSuffix(r, "**")
    ensures |r| == |c.courseNumber| + 12
    ensures r[10..|r| - 2] == c.courseNumber
  {
    NamePrefix + c.courseNumber + "**"
  }

  /** Different course numbers give different section names. */
  lemma SectionNameInjective(c: Course, d: Course)
    requires GetSectionName(c) == GetSectionName(d)
    ensures c.courseNumber == d.courseNumber
  {
  }

  /** `GetSectionInline`: the course's stored inline flag. */
  function GetSectionInline(c: Course): (r: bool)
    ensures r <==> c.isInLine
  {
    c.isInLine
  }

  /** `SetInLine` stores the flag and leaves every other field as it was. */
  function SetInLine(c: Course, isInLine: bool): (r: Course)
    ensures GetSectionInline(r) == isInLine
    ensures r.(isInLine := c.isInLine) == c
  {
    c.(isInLine := isInLine)
  }

  /** The guards that make `FetchCourse` report "no course" (a nil course and no
      error): a page without the information box, or a course lacking its
      title, English title or ECTS points. */
  function CheckFetched(hasInformationBox: bool, c: Course): (r: Option<Course>)
    ensures r.Some? <==> hasInformationBox && c.title != "" && c.englishTitle != "" && c.ects != ""
    ensures r.Some? ==> r.value == c
  {
    if !hasInformationBox then None
    else if c.title == "" || c.englishTitle == "" || c.ects == "" then None
    else Some(c)
  }

  const JsonSuffix := ".json"

  /** Base name of the file `SaveCourseToFile` writes for a course number
      (inside the `courses` directory). */
  function SavedFileName(courseNumber: string): (r: string)
    ensures HasSuffix(r, JsonSuffix)
    ensures TrimSuffix(r, JsonSuffix) == courseNumber
  {
    courseNumber + JsonSuffix
  }

  /** The loop of `GetSavedCourseNumbers` over the directory's entry names. */
  function CourseNumbersOf(names: seq<string>): (r: seq<string>)
    ensures |r| <= |names|
    ensures forall i :: 0 <= i < |r| ==> r[i] + JsonSuffix in names
    ensures forall n :: n in names && HasSuffix(n, JsonSuffix) ==> TrimSuffix(n, JsonSuffix) in r
  {
    if |names| == 0 then []
    else
      var front := names[..|names| - 1];
      var name := names[|names| - 1];
      assert forall n :: n in front ==> n in names;
      assert forall n :: n in names ==> n in front || n == name;
      CourseNumbersOf(front) + (if HasSuffix(name, JsonSuffix) then [TrimSuffix(name, JsonSuffix)] else [])
  }

  /** Names are visited in directory order. */
  lemma {:induction false} CourseNumbersConcat(a: seq<string>, b: seq<string>)
    ensures CourseNumbersOf(a + b) == CourseNumbersOf(a) + CourseNumbersOf(b)
    decreases |b|
  {
    if |b| == 0 {
      assert a + b == a;
    } else {
      var b' := b[..|b| - 1];
      var ab := a + b;
      var name := ab[|ab| - 1];
      assert CourseNumbersOf(ab) == CourseNumbersOf(ab[..|ab| - 1]) + (if HasSuffix(name, JsonSuffix) then [TrimSuffix(name, JsonSuffix)] else []);
      assert CourseNumbersOf(b) == CourseNumbersOf(b') + (if HasSuffix(name, JsonSuffix) then [TrimSuffix(name, JsonSuffix)] else []);
      assert ab[..|ab| - 1] == a + b';
      assert ab[|ab| - 1] == b[|b| - 1];
      CourseNumbersConcat(a, b');
    }
  }

  /** One entry name yields its course number when it ends in `.json`, else nothing. */
  lemma CourseNumberOfOneName(name: string)
    ensures CourseNumbersOf([name]) ==
      if HasSuffix(name, JsonSuffix) then [name[..|name| - 5]] else []
  {
    assert [name][..0] == [];
  }

  /** The saved-file names of a list of course numbers, in the list's order. */
  function SavedFileNames(numbers: seq<string>): (names: seq<string>)
    ensures |names| == |numbers|
    ensures forall i :: 0 <= i < |numbers| ==> names[i] == SavedFileName(numbers[i])
  {
    if |numbers| == 0 then []
    else SavedFileNames(numbers[..|numbers| - 1]) + [SavedFileName(numbers[|numbers| - 1])]
  }

  /** Filtering the saved-file names of a list of course numbers, presented in
      that list's order, returns the list. (The directory lists its files sorted
      by name, so a real listing gives the list back as given exactly when the
      names `n + ".json"` are strictly increasing in byte order.) */
  lemma {:induction false} SavedNamesRoundTrip(numbers: seq<string>)
    ensures CourseNumbersOf(SavedFileNames(numbers)) == numbers
    decreases |numbers|
  {
    if |numbers| > 0 {
      var front := numbers[..|numbers| - 1];
      var last := numbers[|numbers| - 1];
      var names := SavedFileNames(numbers);
      assert names == SavedFileNames(front) + [SavedFileName(last)];
      assert names[..|names| - 1] == SavedFileNames(front);
      assert names[|names| - 1] == SavedFileName(last);
      SavedNamesRoundTrip(front);
      assert numbers == front + [last];
    }
  }

  /** `GetSavedCourseNumbers`: a directory listing error is passed on; otherwise
      every `.json` entry yields its name without that suffix. */
  function GetSavedCourseNumbers(listing: Result<seq<string>, string>): (r: Result<seq<string>, string>)
    ensures listing.Failure? ==> r == Failure(listing.error)
    ensures listing.Success? ==> r.Success? && |r.value| <= |listing.value|
  {
    match listing
    case Failure(e) => Failure(e)
    case Success(names) => Success(CourseNumbersOf(names))
  }
}
