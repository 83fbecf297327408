# Discord-Bot-DTU: course text formatting, verified

This project models the pure string and list logic the DTU course bot uses to
turn scraped catalog data into chat-message text, and proves properties of it
in Dafny 4.11:

- `ChunkString`, `WriteLine` and `WriteTitle` from `internal/utils/section.go`
  (module `SectionFormat`);
- the course-type blocks and the text assembly of one labelled table cell from
  `internal/utils/fetcher.go` (module `Fetcher`). The studiebox parser is proved
  equal to an independent reference definition, "each opening expander collects
  the kept hidden lines up to the next opening expander";
- the course record, its section accessors, the validity guard of
  `FetchCourse` and the saved-file name filtering from `internal/model/course.go`
  (module `CourseModel`);
- the `Section` interface, as a tagged union of the two section kinds
  (module `Sections`);
- the autocomplete choice filter from
  `internal/handlers/autocompletions/course.go` (module `Autocomplete`).

`Strings` holds the Go `strings` functions these files call. `TrimSpace` uses
exactly the white-space set of Go's `unicode.IsSpace`. `Wrappers` holds the
`Option`/`Result` types that stand in for nil returns, errors and panics.
`Lists` holds generic list helpers (concatenation of a list of sequences, flat
map, taking a prefix) and their lemmas.

Modelling decisions:

- Documents are abstract lists. A cell is the list of its child nodes (text,
  anchor, other element). The course-type cell is the list of `<div>`s the
  selector yields, each either the studiebox (its children, expander or not) or
  a plain div with its text.
- In `parseStudiebox` the Go pointer `currentBlock` always points at the block
  appended last. It is set right after every append, so slice reallocation
  cannot leave it stale. It is nil exactly while no block exists. The model
  therefore extends the last block, and ignores hidden lines while the list is
  empty.
- `ChunkString` is generic over the element type. Go slices strings by byte,
  so the Go function is the byte-sequence instance.
- `CourseAutocomplete` calls `model.GetSavedCourses`, which the source does
  not define (the existing function is `GetSavedCourseNumbers`). The saved list
  is a parameter, and `None` stands for the error path that sends no reply.
- The directory listing of `GetSavedCourseNumbers` is a parameter: the entry
  names, or the listing error.

## Model

| member | source | states |
|---|---|---|
| `Strings.TrimSpace` | internal/utils/section.go:31 | the trimmed text is empty exactly when the input is all white space; otherwise it starts and ends with non-space; it is the contiguous piece of the input after its leading white space, and everything after that piece is white space |
| `SectionFormat.ChunkString` | internal/utils/section.go:16-26 | the chunks concatenate back to the input; each is non-empty and at most `maxLen` long; all but the last are exactly `maxLen`; their number is the ceiling of `len/maxLen`; `maxLen > 0` is required here; the other bounds are covered by `SectionFormat.ChunkWithAnyBound` |
| `SectionFormat.ChunkWithAnyBound` | internal/utils/section.go:16-26 | on any bound: a positive bound gives the reference split; a zero bound gives no chunks for the empty string; there is no result (endless loop) for a zero bound on a non-empty string, nor (slice panic) for a negative bound |
| `SectionFormat.ChunkingIsUnique` | internal/utils/section.go:16-26 | those chunking properties determine the split: any split that has them equals the reference front-to-back split |
| `SectionFormat.ReplaceNewlines` | internal/utils/section.go:35-36 | the result has the input's length, has a space wherever the input had a newline, is unchanged elsewhere, and contains no newline |
| `SectionFormat.WriteLine` | internal/utils/section.go:30-38 | the result is empty exactly when the value is blank; otherwise it is the quoted bold-label template around the newline-free value |
| `SectionFormat.WriteLineIsOneLine` | internal/utils/section.go:35-37 | for a newline-free label, a non-empty result is a single line: its only newline is the last character, and the value keeps its length and every non-newline character |
| `SectionFormat.WriteTitle` | internal/utils/section.go:41-46 | the result is empty exactly when the title is blank; otherwise it is the title between `**` and `**` plus a newline, so the title can be read back |
| `Fetcher.GetSectionName` | internal/utils/fetcher.go:139-141 | the name starts with `Course Type: ` and the rest is exactly the title |
| `Fetcher.GetSectionValue` | internal/utils/fetcher.go:144-151 | empty with no expansions, else the expansions joined by `, `, which is non-empty when the first expansion is |
| `Fetcher.SectionValueEmptyIff` | internal/utils/fetcher.go:144-151 | for a block the parser can produce, the value is empty exactly when there are no expansions |
| `Fetcher.GetSectionInline` | internal/utils/fetcher.go:154-156 | a block is never inline |
| `Fetcher.SetInLine` | internal/utils/fetcher.go:159-161 | setting the flag on a block always fails with the panic's message |
| `Fetcher.Step` | internal/utils/fetcher.go:195-217 | one child adds a block exactly when it is an expander with non-blank text, keeps all earlier titles, and keeps every block well formed |
| `Fetcher.Fold` | internal/utils/fetcher.go:194-219 | the titles after the loop are the starting titles followed by the trimmed texts of the opening expanders, in order; well-formedness is kept |
| `Fetcher.ParseStudiebox` | internal/utils/fetcher.go:189-222 | one block per expander with non-blank trimmed text, titled by that text, in input order; every block has a non-empty title, and no expansion is empty or mentions "see more" in any case |
| `Fetcher.FoldConcat` | internal/utils/fetcher.go:194-219 | the loop over `p + q` is the loop over `q` started from the result over `p` |
| `Fetcher.LeadingChildrenDropped` | internal/utils/fetcher.go:210-212 | children before the first opening expander have no effect: hidden lines there have no block to join |
| `Fetcher.IgnoredChildIsNoOp` | internal/utils/fetcher.go:198-217 | a blank expander, a blank hidden line or a "see more" line changes nothing, wherever it stands |
| `Fetcher.ParseMatchesReference` | internal/utils/fetcher.go:189-222 | the parser equals the reference: each opening expander gives a block whose expansions are exactly the kept hidden lines after it, up to the next opening expander |
| `Fetcher.DivBlocks` | internal/utils/fetcher.go:170-183 | the blocks one div contributes are all well formed |
| `Fetcher.ExtractCourseTypeAdvanced` | internal/utils/fetcher.go:163-186 | every assembled block has a non-empty title and kept expansions only |
| `Fetcher.ExtractConcat` | internal/utils/fetcher.go:170-183 | document order is kept: the blocks of `a + b` are the blocks of `a` followed by those of `b` |
| `Fetcher.PlainDivBlock` | internal/utils/fetcher.go:175-181 | a non-studiebox div gives nothing when its text is blank, else one block titled by its trimmed text with no expansions |
| `Fetcher.StudieboxDivBlocks` | internal/utils/fetcher.go:172-174 | a studiebox div contributes exactly the parser's blocks |
| `Fetcher.RenderAnchor` | internal/utils/fetcher.go:73-89 | a mail link renders as `(href)`; another link as `[text](href)`, with the text forced to `Home page` for that field; an anchor without `href` or text renders as its trimmed text |
| `Fetcher.LinkTextIgnored` | internal/utils/fetcher.go:77-86 | for mail links and for the "Home page" field, two anchors with the same `href` render alike whatever their text |
| `Fetcher.RenderNode` | internal/utils/fetcher.go:69-93 | a text node or another element writes its text; an anchor writes its anchor rendering |
| `Fetcher.RenderContents` | internal/utils/fetcher.go:69-93 | no nodes give the empty text; one node gives its rendering; otherwise the text starts with the first node's rendering and ends with the last's |
| `Fetcher.RenderContentsConcat` | internal/utils/fetcher.go:69-93 | the cell text is built in node order: the rendering of `a + b` is that of `a` followed by that of `b` |
| `Fetcher.FormatLink` | internal/utils/fetcher.go:103-104 | an adjacent link is `([Link to `, the trimmed anchor text, `](`, the `href`, then `))`: prefix, suffix, length and the text between them are all fixed |
| `Fetcher.CollectLinks` | internal/utils/fetcher.go:97-107 | at most one link per anchor, each starting with `([Link to `, and none exactly when no anchor has both `href` and text |
| `Fetcher.CollectLinksOne` | internal/utils/fetcher.go:100-106 | one anchor gives its formatted link when it has a non-empty `href` and non-blank text, and nothing otherwise; with `CollectLinksConcat` this fixes every list's links |
| `Fetcher.CollectLinksConcat` | internal/utils/fetcher.go:100-106 | links are collected in document order |
| `Fetcher.AssembleText` | internal/utils/fetcher.go:109-116 | no links gives the plain text; links with empty plain text give the joined links; otherwise the plain text, a space, then the joined links |
| `Fetcher.ExtractText` | internal/utils/fetcher.go:56-117 | with no usable adjacent link the result is the trimmed cell rendering; with links and a blank rendering it is exactly the joined links; with links and a non-blank rendering it is the trimmed rendering, a space, then the joined links (prefix, suffix and length) |
| `Fetcher.ExtractTextTrimmed` | internal/utils/fetcher.go:95-116 | with no usable adjacent link the result has no surrounding white space |
| `CourseModel.GetSectionName` | internal/model/course.go:43-45 | the name is `**Course: `, the course number, then `**`, so the number can be read back |
| `CourseModel.SectionNameInjective` | internal/model/course.go:43-45 | equal section names mean equal course numbers |
| `CourseModel.GetSectionInline` | internal/model/course.go:78-80 | the section is inline exactly when the course's flag is set |
| `CourseModel.SetInLine` | internal/model/course.go:78-85 | afterwards the inline flag reads back as the value set, and no other field changes |
| `CourseModel.CheckFetched` | internal/model/course.go:146-149 | a course is returned, unchanged, exactly when the page had the information box and title, English title and ECTS are all non-empty; otherwise no course |
| `CourseModel.SavedFileName` | internal/model/course.go:191 | the saved file name ends in `.json`, and trimming that suffix gives the course number back |
| `CourseModel.CourseNumbersOf` | internal/model/course.go:211-216 | never longer than the listing; every entry plus `.json` is a listed name; every listed `.json` name contributes its name minus one `.json` |
| `CourseModel.CourseNumberOfOneName` | internal/model/course.go:213-214 | one entry name yields its name minus one trailing `.json` when it has that suffix, and nothing otherwise |
| `CourseModel.CourseNumbersConcat` | internal/model/course.go:212-216 | entries come out in listing order |
| `CourseModel.SavedFileNames` | internal/model/course.go:191 | the saved-file names of a list of course numbers, one per number, in the list's order |
| `CourseModel.SavedNamesRoundTrip` | internal/model/course.go:211-216 | filtering the saved-file names of a list of course numbers, presented in that list's order, gives the list back; the order and duplicate-freedom of a real directory listing are not part of the claim |
| `CourseModel.GetSavedCourseNumbers` | internal/model/course.go:205-218 | a listing error is returned as the error; a listing gives a list no longer than itself |
| `Sections.GetSectionName` | internal/utils/section.go:10 | through the interface, a course's name is `**Course: ` with its number read back from the middle, and a block's name is `Course Type: ` followed by its title |
| `Sections.GetSectionInline` | internal/utils/section.go:12 | through the interface, a course is inline exactly when its flag is set, and a block never is |
| `Sections.SetInLine` | internal/utils/section.go:8-13 | through the interface, setting the flag succeeds exactly on a course, after which the flag reads back and the name is unchanged; on a course-type block it fails with the panic's message |
| `Sections.SetInLineTwice` | internal/model/course.go:83-85 | setting the flag twice equals setting it once to the second value |
| `Autocomplete.BeforeComma` | internal/handlers/autocompletions/course.go:37 | the result is a comma-free prefix of the course string, followed in it by a comma unless it is the whole string |
| `Autocomplete.ChoiceFor` | internal/handlers/autocompletions/course.go:37-41 | a choice shows the whole course string and submits its comma-free leading part, which is all of it or is followed by a comma |
| `Autocomplete.Matches` | internal/handlers/autocompletions/course.go:34-43 | every choice is a saved course starting with the input, valued by its part before the first comma; every such course has its choice |
| `Autocomplete.MatchesConcat` | internal/handlers/autocompletions/course.go:34-43 | matches keep the order of the saved list |
| `Autocomplete.FilterChoices` | internal/handlers/autocompletions/course.go:33-47 | at most 25 choices; each a saved course with the input as prefix and the right value; they are the first 25 matches in order, and all matches when there are at most 25 |
| `Autocomplete.LoopStopsAtTake` | internal/handlers/autocompletions/course.go:34-47 | stopping the scan at the end of the list, or where exactly 25 matches have been collected, leaves the first 25 matches of the whole list |
| `Autocomplete.CourseAutocomplete` | internal/handlers/autocompletions/course.go:12-47 | no reply for another command name, for no options or for a failed listing; otherwise the first 25 matches of the upper-cased first option |

## Left out

- Network, browser and HTTP fetching (`FetchDynamicCoursePage`, the request part of `FetchCourse`): I/O and timeouts.
- goquery selector matching and DOM traversal, including the label filter of `ExtractText`, `ExtractFieldByName`'s selector building, and the field extraction of `FetchCourse`. The model starts from the node lists these produce. It does not model that `Find("div")` also visits nested divs.
- `extractCourseType`, `extractPrerequisites` and `extractCourseWebsite` in `internal/model/course.go`: selector queries followed by a join or an attribute read.
- `Course.GetSectionValue`: a fixed format template with RFC 1123 time formatting. The `Sections` union therefore offers name, inline flag and `SetInLine`, not the value.
- `SaveCourseToFile` and the `ReadDir` call: file-system I/O. Only the file-name rule and the name filtering are modelled. The listing is any sequence of names; that `ReadDir` sorts them by name and that a directory holds one file per name are not modelled.
- `ToUpper` and `ToLower` are ASCII-only; Go maps all Unicode letters.
- Go strings are byte sequences and `TrimSpace` decodes UTF-8; the model uses sequences of Unicode scalar values.
- Discord plumbing (`internal/discord/service.go`, `internal/handlers/command.go`, `main.go`, `internal/config/config.go`) and sending the autocomplete reply.
- The pagination session store and its page renderer (`utils.PaginatedSessions`, `SendInitialPaginationResponse`) is not part of this model. It is referenced from `main.go`, `internal/discord/service.go`, `internal/handlers/command.go` and `internal/handlers/commands/fetch_course.go`. Its idle sweep and locking are time- and concurrency-based.
- `internal/handlers/commands/fetch_course.go`: it does not type-check against `Course` (it passes a string to `SaveCourseToFile` and uses fields the record lacks).
- `CourseModel.GetSavedCourseNumbers`: the ensures give only the error case and the length bound; the contents are stated on `CourseModel.CourseNumbersOf`.
- Logging: the `log.Println` calls in `internal/handlers/autocompletions/course.go:28` and `internal/model/course.go:107`, `:111` and `:147` only write to the process log; the model returns the same results without them.
- Pointer aliasing in `SetInLine`: Go's `(*Course).SetInLine` writes through a pointer that the caller's `fields` slice also holds, so the change is visible there. The model returns a new record instead, and `Sections.SetInLine` returns the new section.
