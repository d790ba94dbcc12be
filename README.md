# Student performance dashboard: roster and suggestion rules

A Dafny model of the logic inside the three dashboard pages of a role-based
student performance dashboard (administrator, teacher, student):

- **Administrator page** (`AdminDashboard` module, class `AdminState`): two
  rosters, teachers and students. Adding a teacher allocates the next id as
  the largest id plus one and splits the comma-separated class text into
  trimmed pieces. Adding a student gives the id `"s"` followed by the roster
  size plus one and reads the average leniently (not a number gives 0).
  Removing keeps the records with another id. Mapping a student to a teacher
  adds the student's class to that teacher's class list when it is missing.
- **Teacher page** (`TeacherDashboard` module, class `TeacherState`): a
  roster that starts with three students and only grows, the selected
  student, the score-trend series of that student's assessments, and the
  split of a subject-to-score object into strengths (score at least 75) and
  areas for improvement.
- **Student page** (`StudentDashboard` module): a fixed list of three
  subject scores, each classified as Excellent (90 and up), Good (75 to 89)
  or Needs Improvement.
- Shared helpers: `Seqs` (JavaScript `findIndex` and `filter` by key, an
  ordered-subsequence relation) and `Text` (`trim`, `split`, decimal text of
  a number, the `Number(text) || 0` coercion).

The rosters' state changes are methods of classes whose `ensures` tie the
new rosters to pure functions of the old ones (`MappedTeachers`,
`RemoveKey`, `NewTeacher`, `NewStudent`); the properties the pages rely on
are lemmas about those functions.

Behaviour of the code worth knowing, which the model keeps as written:
- A mapping request that names an unknown teacher or student does not
  raise an error: it returns and changes nothing (`MapOutcome.NotFound`).
- Student ids are not guaranteed unique in the administrator flow: the id
  depends only on the roster size, so after a removal a new student can get
  an id already in use (`NewStudentIdCanRepeat`). In the teacher flow, which
  never removes, ids stay distinct (`SequentialIdsDistinct`).
- Strengths and improvements are lists in the order of the score object's
  entries, not sets, and the only threshold is 75.
- A mapping choice of teacher id 0 counts as "nothing selected", as
  `!mapping.teacherId` does in JavaScript.

## Model

| member | source | states |
|---|---|---|
| `Seqs.IndexOfKey` | src/pages/AdminDashboard.jsx:104-105 | `findIndex` gives -1 exactly when no record has the id, otherwise the first index whose record has it |
| `Seqs.RemoveKeyKeepsOthers` | src/pages/AdminDashboard.jsx:125-132 | `RemoveKey`, the `filter` by id, keeps exactly the records with another id, every copy of each, as an ordered subsequence of the roster |
| `Seqs.RemoveAbsentKey` | src/pages/AdminDashboard.jsx:127 | removing an id that no record has leaves the roster unchanged |
| `Seqs.IndexOfKeySameKeys` | src/pages/AdminDashboard.jsx:104 | the lookup depends only on the ids, so editing other fields does not move it |
| `Text.TrimSpec` | src/pages/AdminDashboard.jsx:79 | `Trim`, the model of `trim`, returns a contiguous piece of the text, with no whitespace at either end, and only whitespace cut around it |
| `Text.TrimIdempotent` | src/pages/AdminDashboard.jsx:79 | trimming an already trimmed piece changes nothing |
| `Text.Split` | src/pages/AdminDashboard.jsx:79 | `split(",")` gives one more piece than there are commas, no piece contains a comma, empty pieces are kept |
| `Text.JoinSplit` | src/pages/AdminDashboard.jsx:79 | joining the pieces with commas gives back the original text |
| `Text.TrimAll` | src/pages/AdminDashboard.jsx:79 | `map(c => c.trim())` keeps one entry per piece, each the trimmed piece |
| `Text.NatToString` | src/pages/AdminDashboard.jsx:91 | the decimal text of a count is non-empty, all digits, and has no leading zero |
| `Text.DigitsValueOfNatToString` | src/pages/AdminDashboard.jsx:92 | reading the decimal text of a number back gives the number |
| `Text.NatToStringInjective` | src/pages/TeacherDashboard.jsx:151 | different counts give different decimal texts |
| `Text.NumberOrZeroReadsDecimal` | src/pages/AdminDashboard.jsx:92 | `NumberOrZero`, the average coercion (`Number`, falling back to 0), reads back any decimal number, also with any whitespace before it, after it, or both (the two sides independent) |
| `Text.StudentIdInjective` | src/pages/TeacherDashboard.jsx:151 | ids `"s"` + n are different for different n |
| `AdminDashboard.MaxId` | src/pages/AdminDashboard.jsx:78 | `Math.max` over a non-empty id list is one of the ids and at least every id |
| `AdminDashboard.NextTeacherIdFresh` | src/pages/AdminDashboard.jsx:78 | `NextTeacherId`, the new teacher id, is 1 for an empty roster, otherwise the maximum plus one; it exceeds every existing id |
| `AdminDashboard.ClassesFromTextPieces` | src/pages/AdminDashboard.jsx:79 | `ClassesFromText`: empty class text gives no classes; otherwise (whitespace-only text included, which gives one empty class) one trimmed, comma-free entry per comma-separated piece, empty ones kept |
| `AdminDashboard.NewStudentIdCanRepeat` | src/pages/AdminDashboard.jsx:91 | after adding two students and removing the first, the next student gets the second one's id |
| `AdminDashboard.MapOutcomeCases` | src/pages/AdminDashboard.jsx:99-106 | `OutcomeOf` and `MappedTeachers`: a blank student id or teacher choice, or an id that matches no record, changes nothing; otherwise both found records carry the chosen ids |
| `AdminDashboard.MapTouchesOneTeacher` | src/pages/AdminDashboard.jsx:109-118 | `MappedTeachers` changes only the found teacher's classes: the student's class is appended at the end if missing (a missing list counts as empty), existing classes keep their order, all other teachers are unchanged |
| `AdminDashboard.MapIdempotent` | src/pages/AdminDashboard.jsx:113-114 | mapping the same pair a second time changes nothing |
| `AdminDashboard.MapKeepsClassesDistinct` | src/pages/AdminDashboard.jsx:114 | mapping never puts a duplicate class into a teacher's list |
| `AdminDashboard.TeacherOperationsKeepIdsDistinct` | src/pages/AdminDashboard.jsx:78-81 | distinct teacher ids stay distinct after adding a teacher, mapping, or removing |
| `AdminDashboard.AdminState.constructor` | src/pages/AdminDashboard.jsx:51-52 | the page starts from the stored rosters |
| `AdminDashboard.AdminState.AddTeacher` | src/pages/AdminDashboard.jsx:73-83 | a form without name, email or password changes nothing; otherwise exactly one teacher with the next id and the parsed classes is appended and the students are untouched |
| `AdminDashboard.AdminState.AddStudent` | src/pages/AdminDashboard.jsx:86-95 | a form without name, email or password changes nothing; otherwise exactly one student with id `"s"` + (count + 1), the coerced average and attendance 0 is appended |
| `AdminDashboard.AdminState.MapStudentToTeacher` | src/pages/AdminDashboard.jsx:98-122 | the new teacher roster is the mapped roster, the student roster is unchanged, and the outcome says which case applied |
| `AdminDashboard.AdminState.RemoveTeacher` | src/pages/AdminDashboard.jsx:125-128 | a declined confirmation changes nothing; otherwise the teachers with another id remain |
| `AdminDashboard.AdminState.RemoveStudent` | src/pages/AdminDashboard.jsx:129-132 | a declined confirmation changes nothing; otherwise the students with another id remain |
| `TeacherDashboard.GetSuggestions` | src/pages/TeacherDashboard.jsx:137-145 | the loop returns exactly the subjects scored 75 or more and exactly those scored below, each in entry order |
| `TeacherDashboard.SuggestionsPartition` | src/pages/TeacherDashboard.jsx:137-145 | `Strengths` and `Improvements` split the keys: every subject key is in one of them, nothing else is; both lists keep the entries' order and together are as long as the entries |
| `TeacherDashboard.SuggestionsInOrder` | src/pages/TeacherDashboard.jsx:140-143 | strengths and improvements each list subjects in the order of the entries |
| `TeacherDashboard.SuggestionsCover` | src/pages/TeacherDashboard.jsx:140-143 | each entry contributes its subject to exactly one list and no other subject appears |
| `TeacherDashboard.SuggestionsByScore` | src/pages/TeacherDashboard.jsx:141-142 | with distinct keys, a subject is in `Strengths` exactly when its score is at least 75 (75 included) and in `Improvements` exactly when below |
| `TeacherDashboard.SuggestionsDisjoint` | src/pages/TeacherDashboard.jsx:140-143 | no subject is in both lists |
| `TeacherDashboard.AllBelowThreshold` | src/pages/TeacherDashboard.jsx:141-142 | when every score is below 75 there are no strengths and every subject needs improvement |
| `TeacherDashboard.ZeroScoresNeedImprovement` | src/pages/TeacherDashboard.jsx:158 | a new student's all-zero scores give no strength and all five subjects as improvements |
| `TeacherDashboard.FindStudent` | src/pages/TeacherDashboard.jsx:127-130 | `find` gives the first listed student with the id, or nothing exactly when no student has it |
| `TeacherDashboard.ScoreTrend` | src/pages/TeacherDashboard.jsx:132-135 | one point per assessment, in the same order, named by its title with its score |
| `TeacherDashboard.ScoreTrendAppend` | src/pages/TeacherDashboard.jsx:132-135 | the series of a longer history extends the series of its beginning |
| `TeacherDashboard.SequentialIdsDistinct` | src/pages/TeacherDashboard.jsx:151 | students numbered `"s"` + (position + 1) have pairwise distinct ids |
| `TeacherDashboard.TeacherState.constructor` | src/pages/TeacherDashboard.jsx:118-119 | the page starts with the three default students, numbered s1 to s3, and s1 selected |
| `TeacherDashboard.TeacherState.AddStudent` | src/pages/TeacherDashboard.jsx:147-165 | without a name or email nothing changes; otherwise one student is appended with id `"s"` + (length + 1), the chosen class, attendance 100, one Quiz 1 of 0/100 and all five subjects at 0; the numbering and the selection stay valid |
| `TeacherDashboard.TeacherState.Select` | src/pages/TeacherDashboard.jsx:244-248 | picking a listed student selects its id and keeps the roster |
| `TeacherDashboard.TeacherState.SelectedStudent` | src/pages/TeacherDashboard.jsx:127-130 | the selected student always exists and carries the selected id |
| `TeacherDashboard.TeacherState.ScoreTrendData` | src/pages/TeacherDashboard.jsx:132-135 | the chart has one point per assessment of the selected student, in order, named by its title with its score |
| `StudentDashboard.GetSuggestion` | src/pages/StudentDashboard.jsx:19-23 | 90 and up is Excellent (success), 75 to 89 is Good (primary), below 75 is Needs Improvement (error); both bounds inclusive |
| `StudentDashboard.GetSuggestionTotal` | src/pages/StudentDashboard.jsx:19-23 | every score gets exactly one of the three suggestions |
| `StudentDashboard.GetSuggestionMonotone` | src/pages/StudentDashboard.jsx:19-23 | raising a score never moves it to a lower band: Excellent stays Excellent, and a score above Needs Improvement stays above it |
| `StudentDashboard.SubjectSuggestions` | src/pages/StudentDashboard.jsx:35-36 | one suggestion per subject, each for that subject's score |
| `StudentDashboard.FixedSubjectsSuggestions` | src/pages/StudentDashboard.jsx:13-23 | Math 85 and Science 89 are Good, English 97 is Excellent |

## Left out

- Page markup, Material UI widgets, tabs, dialogs and charts: presentation only.
- Loading and saving the rosters in browser storage (`JSON.parse`, the persistence effects): I/O; the rosters are in-memory sequences and the constructor takes the stored ones as parameters.
- `alert` and `window.confirm`: UI side effects; an alert is "no change" (with an outcome or a `false` result), and the confirmation is a boolean parameter.
- Resetting the input forms and closing the dialog after an add or a mapping: UI state only.
- The enrolment date (`new Date().toLocaleDateString()`): ambient time and locale formatting; it is a parameter of `TeacherState.AddStudent`.
- `Text.NumberOrZero`: models `Number(text) || 0` for unsigned decimal integers only; signs, fractions, exponents, hexadecimal, binary (`0b`) and octal (`0o`) prefixes and `Infinity` are read as 0 rather than as JavaScript numbers, and digit strings above 2^53 are read exactly where JavaScript rounds them to the nearest double.
- Scores are integers; fractional scores are not modelled.
- Teacher ids are integers; non-numeric ids read from storage, for which `Math.max` gives `NaN`, are not modelled.
- Mapping copies the teacher with a spread and then pushes onto the class array that the copy still shares with the previous state, so the previous state object is also changed; the model works on values and does not capture this aliasing.
- The hard-coded demo data without computation (`subjectBarData`, `examplePerformance`, the `studentPerformance` memo) and the literal "Overall Grade: B+".
- Login navigation, role guards, routes, sign-up, navigation bars and the not-allowed page: routing and UI glue.
- The pages contain no attendance accumulator, report composer, record normaliser, five-digit id allocator, average-score function, CSV export or remote store, so none of these is part of this model.
