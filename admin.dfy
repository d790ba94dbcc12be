/** The administrator's roster page: the teacher and student lists, adding
    and removing records, and mapping a student's class onto a teacher. */
module AdminDashboard {
  import opened Seqs
  import opened Text

  /** A teacher record. `classes` is `None` for a stored record that has no
      classes field at all. */
  datatype Teacher = Teacher(id: int, name: string, email: string, password: string,
                             subject: string, classes: Option<seq<string>>)

  /** A student record as the administrator stores it. */
  datatype Student = Student(id: string, name: string, email: string, password: string,
                             className: string, avg: int, attendance: int)

  /** The add-teacher form; `classesText` is the comma-separated class list. */
  datatype TeacherForm = TeacherForm(name: string, email: string, password: string,
                                     subject: string, classesText: string)

  /** The add-student form; `avg` is the text typed into the average field. */
  datatype StudentForm = StudentForm(name: string, email: string, password: string,
                                     className: string, avg: string)

  /** The teacher picked in the mapping form: nothing yet, or a teacher id. */
  datatype TeacherChoice = NoTeacher | ChosenTeacher(id: int)

  /** What a mapping request did: it was refused because a selection was
      blank, it found no matching record, or it updated the teacher at
      `teacherIndex` with the class of the student at `studentIndex`. */
  datatype MapOutcome = SelectionMissing | NotFound | Mapped(teacherIndex: nat, studentIndex: nat)

  function TeacherIdOf(t: Teacher): int { t.id }
  function StudentIdOf(s: Student): string { s.id }

  /* ---------- Adding a teacher ---------- */

  /** Largest id of a non-empty list (`Math.max(...ids)`). */
  function MaxId(ids: seq<int>): (m: int)
    requires ids != []
    ensures m in ids
    ensures forall i :: i in ids ==> i <= m
    decreases |ids|
  {
    if |ids| == 1 then ids[0]
    else
      var rest := MaxId(ids[1..]);
      assert ids == [ids[0]] + ids[1..];
      if ids[0] > rest then ids[0] else rest
  }

  function TeacherIds(teachers: seq<Teacher>): (ids: seq<int>)
    ensures |ids| == |teachers|
    ensures forall i :: 0 <= i < |ids| ==> ids[i] == teachers[i].id
  {
    seq(|teachers|, i requires 0 <= i < |teachers| => teachers[i].id)
  }

  /** The id a new teacher gets: 1 for an empty roster, otherwise one more
      than the largest existing id. */
  function NextTeacherId(teachers: seq<Teacher>): int {
    if |teachers| > 0 then MaxId(TeacherIds(teachers)) + 1 else 1
  }

  /** The new id is fresh: larger than every existing id, and exactly one more
      than some existing id unless the roster is empty. */
  lemma NextTeacherIdFresh(teachers: seq<Teacher>)
    ensures teachers == [] ==> NextTeacherId(teachers) == 1
    ensures forall t :: t in teachers ==> t.id < NextTeacherId(teachers)
    ensures teachers != [] ==> exists t :: t in teachers && t.id == NextTeacherId(teachers) - 1
  {
    if teachers != [] {
      var ids := TeacherIds(teachers);
      var m := MaxId(ids);
      forall t | t in teachers ensures t.id < m + 1 {
        var k :| 0 <= k < |teachers| && teachers[k] == t;
        assert ids[k] == t.id && ids[k] in ids;
      }
      var k :| 0 <= k < |ids| && ids[k] == m;
      assert teachers[k] in teachers;
    }
  }

  /** The class list typed as comma-separated text: empty text gives no
      classes, otherwise `text.split(",").map(c => c.trim())`. */
  function ClassesFromText(text: string): seq<string> {
    if text == [] then [] else TrimAll(Split(text, ','))
  }

  /** One entry per comma-separated piece (empty pieces kept), each trimmed
      and free of commas; and each entry is the trimmed piece at its place. */
  lemma ClassesFromTextPieces(text: string)
    ensures text == [] ==> ClassesFromText(text) == []
    ensures text != [] ==> |ClassesFromText(text)| == Count(text, ',') + 1
    ensures forall i :: 0 <= i < |ClassesFromText(text)| ==>
              IsTrimmed(ClassesFromText(text)[i]) && ',' !in ClassesFromText(text)[i]
    ensures text != [] ==> forall i :: 0 <= i < |ClassesFromText(text)| ==>
              ClassesFromText(text)[i] == Trim(Split(text, ',')[i])
  {
    var cs := ClassesFromText(text);
    forall i | 0 <= i < |cs| ensures IsTrimmed(cs[i]) && ',' !in cs[i] {
      var piece := Split(text, ',')[i];
      TrimSpec(piece);
    }
  }

  predicate IsFilled(form: TeacherForm) {
    form.name != [] && form.email != [] && form.password != []
  }

  /** The record `addTeacher` appends for a filled-in form. */
  function NewTeacher(form: TeacherForm, teachers: seq<Teacher>): Teacher {
    Teacher(NextTeacherId(teachers), form.name, form.email, form.password, form.subject,
            Some(ClassesFromText(form.classesText)))
  }

  /* ---------- Adding a student ---------- */

  predicate IsFilledStudent(form: StudentForm) {
    form.name != [] && form.email != [] && form.password != []
  }

  /** The record `addStudent` appends when `count` students exist: id "s"
      followed by count + 1, the average read leniently, attendance 0. */
  function NewStudent(form: StudentForm, count: nat): Student {
    Student(StudentId(count + 1), form.name, form.email, form.password, form.className,
            NumberOrZero(form.avg), 0)
  }

  /** The new student's id depends only on how many students there are, so
      after a removal it can repeat an id already in the roster: add two
      students, remove the first, add a third, and the third has the
      second's id. */
  lemma NewStudentIdCanRepeat(f1: StudentForm, f2: StudentForm, f3: StudentForm)
    ensures var s1 := NewStudent(f1, 0);
            var s2 := NewStudent(f2, 1);
            var kept := RemoveKey([s1, s2], StudentIdOf, s1.id);
            kept == [s2] && NewStudent(f3, |kept|).id == s2.id
  {
    var s1 := NewStudent(f1, 0);
    var s2 := NewStudent(f2, 1);
    assert s1.id == StudentId(1) && s2.id == StudentId(2);
    if s1.id == s2.id {
      StudentIdInjective(1, 2);
    }
    var kept := RemoveKey([s1, s2], StudentIdOf, s1.id);
    assert RemoveKey([s1], StudentIdOf, s1.id) == [] by {
      assert [s1][..0] == [];
    }
    assert [s1, s2][..1] == [s1];
    assert kept == [] + [s2];
  }

  /* ---------- Mapping a student to a teacher ---------- */

  /** `!mapping.teacherId`: no teacher chosen, or the falsy id 0. */
  predicate IsBlankChoice(choice: TeacherChoice) {
    choice.NoTeacher? || choice.id == 0
  }

  function ClassesOrEmpty(classes: Option<seq<string>>): seq<string> {
    if classes.None? then [] else classes.value
  }

  /** Append `c` unless it is already present. */
  function AddIfMissing(classes: seq<string>, c: string): seq<string> {
    if c in classes then classes else classes + [c]
  }

  function OutcomeOf(teachers: seq<Teacher>, students: seq<Student>,
                     studentId: string, choice: TeacherChoice): (o: MapOutcome)
    ensures o.Mapped? ==> o.teacherIndex < |teachers| && o.studentIndex < |students|
  {
    if studentId == [] || IsBlankChoice(choice) then SelectionMissing
    else
      var tIdx := IndexOfKey(teachers, TeacherIdOf, choice.id);
      var sIdx := IndexOfKey(students, StudentIdOf, studentId);
      if tIdx < 0 || sIdx < 0 then NotFound else Mapped(tIdx, sIdx)
  }

  /** The teacher roster after a mapping request. */
  function MappedTeachers(teachers: seq<Teacher>, students: seq<Student>,
                          studentId: string, choice: TeacherChoice): seq<Teacher>
  {
    match OutcomeOf(teachers, students, studentId, choice)
    case Mapped(t, s) =>
      var c := students[s].className;
      teachers[t := teachers[t].(classes := Some(AddIfMissing(ClassesOrEmpty(teachers[t].classes), c)))]
    case _ => teachers
  }

  /** When a selection is blank or either id matches no record, nothing is
      changed; otherwise both records exist and carry the chosen ids. */
  lemma MapOutcomeCases(teachers: seq<Teacher>, students: seq<Student>,
                        studentId: string, choice: TeacherChoice)
    ensures OutcomeOf(teachers, students, studentId, choice) == SelectionMissing
            <==> studentId == [] || IsBlankChoice(choice)
    ensures OutcomeOf(teachers, students, studentId, choice) == NotFound
            <==> studentId != [] && !IsBlankChoice(choice)
                 && ((forall t :: t in teachers ==> t.id != choice.id)
                     || (forall s :: s in students ==> s.id != studentId))
    ensures !OutcomeOf(teachers, students, studentId, choice).Mapped? ==>
              MappedTeachers(teachers, students, studentId, choice) == teachers
    ensures OutcomeOf(teachers, students, studentId, choice).Mapped? ==>
              var o := OutcomeOf(teachers, students, studentId, choice);
              teachers[o.teacherIndex].id == choice.id && students[o.studentIndex].id == studentId
  {
    if studentId != [] && !IsBlankChoice(choice) {
      var tIdx := IndexOfKey(teachers, TeacherIdOf, choice.id);
      var sIdx := IndexOfKey(students, StudentIdOf, studentId);
      if tIdx < 0 {
        forall t | t in teachers ensures t.id != choice.id {
          var k :| 0 <= k < |teachers| && teachers[k] == t;
          assert TeacherIdOf(teachers[k]) != choice.id;
        }
      } else if sIdx < 0 {
        forall s | s in students ensures s.id != studentId {
          var k :| 0 <= k < |students| && students[k] == s;
          assert StudentIdOf(students[k]) != studentId;
        }
      } else {
        assert TeacherIdOf(teachers[tIdx]) == choice.id;
        assert StudentIdOf(students[sIdx]) == studentId;
        assert teachers[tIdx] in teachers && teachers[tIdx].id == choice.id;
        assert students[sIdx] in students && students[sIdx].id == studentId;
      }
    }
  }

  /** A successful mapping touches only the found teacher: its classes now
      contain the student's class, which was appended at the end only if it
      was missing (a missing field counts as no classes); every other teacher
      is unchanged, and so is every other field of the found one. */
  lemma MapTouchesOneTeacher(teachers: seq<Teacher>, students: seq<Student>,
                             studentId: string, choice: TeacherChoice)
    requires OutcomeOf(teachers, students, studentId, choice).Mapped?
    ensures var o := OutcomeOf(teachers, students, studentId, choice);
            var r := MappedTeachers(teachers, students, studentId, choice);
            var old_cs := ClassesOrEmpty(teachers[o.teacherIndex].classes);
            var c := students[o.studentIndex].className;
            && |r| == |teachers|
            && (forall j :: 0 <= j < |r| && j != o.teacherIndex ==> r[j] == teachers[j])
            && r[o.teacherIndex].classes.Some?
            && c in r[o.teacherIndex].classes.value
            && r[o.teacherIndex].classes.value == (if c in old_cs then old_cs else old_cs + [c])
            && r[o.teacherIndex] == teachers[o.teacherIndex].(classes := r[o.teacherIndex].classes)
  {
  }

  /** Mapping the same pair again changes nothing more. */
  lemma MapIdempotent(teachers: seq<Teacher>, students: seq<Student>,
                      studentId: string, choice: TeacherChoice)
    ensures var once := MappedTeachers(teachers, students, studentId, choice);
            MappedTeachers(once, students, studentId, choice) == once
  {
    var once := MappedTeachers(teachers, students, studentId, choice);
    var o := OutcomeOf(teachers, students, studentId, choice);
    if o.Mapped? {
      MapTouchesOneTeacher(teachers, students, studentId, choice);
      assert forall j :: 0 <= j < |once| ==> TeacherIdOf(once[j]) == TeacherIdOf(teachers[j]);
      IndexOfKeySameKeys(teachers, once, TeacherIdOf, choice.id);
      assert OutcomeOf(once, students, studentId, choice) == o;
      var c := students[o.studentIndex].className;
      assert c in ClassesOrEmpty(once[o.teacherIndex].classes);
      assert once[o.teacherIndex := once[o.teacherIndex]] == once;
    }
  }

  predicate NoDuplicates(cs: seq<string>) {
    forall i, j :: 0 <= i < j < |cs| ==> cs[i] != cs[j]
  }

  /** Mapping never introduces a duplicate class into a teacher's list. */
  lemma MapKeepsClassesDistinct(teachers: seq<Teacher>, students: seq<Student>,
                                studentId: string, choice: TeacherChoice, k: nat)
    requires k < |teachers| && NoDuplicates(ClassesOrEmpty(teachers[k].classes))
    ensures var r := MappedTeachers(teachers, students, studentId, choice);
            k < |r| && NoDuplicates(ClassesOrEmpty(r[k].classes))
  {
    var o := OutcomeOf(teachers, students, studentId, choice);
    if o.Mapped? && o.teacherIndex == k {
      MapTouchesOneTeacher(teachers, students, studentId, choice);
      var cs := ClassesOrEmpty(teachers[k].classes);
      var c := students[o.studentIndex].className;
      if c !in cs {
        var ncs := cs + [c];
        forall i, j | 0 <= i < j < |ncs| ensures ncs[i] != ncs[j] {
          if j == |cs| {
            assert ncs[i] in cs;
          }
        }
      }
    }
  }

  /* ---------- Teacher ids stay distinct ---------- */

  predicate DistinctTeacherIds(teachers: seq<Teacher>) {
    forall i, j :: 0 <= i < j < |teachers| ==> teachers[i].id != teachers[j].id
  }

  /** Each roster operation keeps teacher ids distinct: appending a teacher
      with the next id, mapping (ids untouched) and removal (a
      subsequence). */
  lemma TeacherOperationsKeepIdsDistinct(teachers: seq<Teacher>, students: seq<Student>,
                                         form: TeacherForm, studentId: string,
                                         choice: TeacherChoice, id: int)
    requires DistinctTeacherIds(teachers)
    ensures DistinctTeacherIds(teachers + [NewTeacher(form, teachers)])
    ensures DistinctTeacherIds(MappedTeachers(teachers, students, studentId, choice))
    ensures DistinctTeacherIds(RemoveKey(teachers, TeacherIdOf, id))
  {
    NextTeacherIdFresh(teachers);
    var added := teachers + [NewTeacher(form, teachers)];
    forall i, j | 0 <= i < j < |added| ensures added[i].id != added[j].id {
      if j == |teachers| {
        assert added[i] in teachers;
      }
    }
    if OutcomeOf(teachers, students, studentId, choice).Mapped? {
      MapTouchesOneTeacher(teachers, students, studentId, choice);
    }
    DistinctAfterRemove(teachers, id);
  }

  lemma {:induction false} DistinctAfterRemove(teachers: seq<Teacher>, id: int)
    requires DistinctTeacherIds(teachers)
    ensures DistinctTeacherIds(RemoveKey(teachers, TeacherIdOf, id))
    decreases |teachers|
  {
    if teachers != [] {
      var init, last := teachers[..|teachers| - 1], teachers[|teachers| - 1];
      DistinctAfterRemove(init, id);
      var rest := RemoveKey(init, TeacherIdOf, id);
      if last.id != id {
        RemoveKeyKeepsOthers(init, TeacherIdOf, id);
        forall t | t in rest ensures t.id != last.id {
          var k :| 0 <= k < |init| && init[k] == t;
          assert teachers[k] == t;
        }
        DistinctAppend(rest, last);
      }
    }
  }

  /** Appending a teacher whose id no listed teacher has keeps ids distinct. */
  lemma DistinctAppend(teachers: seq<Teacher>, t: Teacher)
    requires DistinctTeacherIds(teachers)
    requires forall u :: u in teachers ==> u.id != t.id
    ensures DistinctTeacherIds(teachers + [t])
  {
    var r := teachers + [t];
    forall i, j | 0 <= i < j < |r| ensures r[i].id != r[j].id {
      if j == |teachers| {
        assert r[i] in teachers;
      }
    }
  }

  /* ---------- The page state ---------- */

  /** The two rosters the page holds (loaded from and saved to browser
      storage, which is not modelled). */
  class AdminState {
    var teachers: seq<Teacher>
    var students: seq<Student>

    constructor (storedTeachers: seq<Teacher>, storedStudents: seq<Student>)
      ensures teachers == storedTeachers && students == storedStudents
    {
      teachers := storedTeachers;
      students := storedStudents;
    }

    /** `addTeacher`: a form missing name, email or password changes nothing;
        otherwise exactly one teacher is appended. */
    method AddTeacher(form: TeacherForm) returns (added: bool)
      modifies this
      ensures added <==> IsFilled(form)
      ensures teachers == if added then old(teachers) + [NewTeacher(form, old(teachers))]
                          else old(teachers)
      ensures students == old(students)
    {
      if form.email == [] || form.password == [] || form.name == [] {
        return false;
      }
      var id := if |teachers| > 0 then MaxId(TeacherIds(teachers)) + 1 else 1;
      var classes := if form.classesText != [] then TrimAll(Split(form.classesText, ',')) else [];
      var teacher := Teacher(id, form.name, form.email, form.password, form.subject, Some(classes));
      teachers := teachers + [teacher];
      added := true;
    }

    /** `addStudent`: a form missing name, email or password changes nothing;
        otherwise exactly one student is appended. */
    method AddStudent(form: StudentForm) returns (added: bool)
      modifies this
      ensures added <==> IsFilledStudent(form)
      ensures students == if added then old(students) + [NewStudent(form, |old(students)|)]
                          else old(students)
      ensures teachers == old(teachers)
    {
      if form.email == [] || form.password == [] || form.name == [] {
        return false;
      }
      var id := "s" + NatToString(|students| + 1);
      var student := Student(id, form.name, form.email, form.password, form.className,
                             NumberOrZero(form.avg), 0);
      students := students + [student];
      added := true;
    }

    /** `mapStudentToTeacher`: copy the found teacher, give it an empty class
        list if it has none, push the student's class if missing, and put the
        copy back at the same index. The student roster is never changed. */
    method MapStudentToTeacher(studentId: string, choice: TeacherChoice) returns (outcome: MapOutcome)
      modifies this
      ensures outcome == OutcomeOf(old(teachers), old(students), studentId, choice)
      ensures teachers == MappedTeachers(old(teachers), old(students), studentId, choice)
      ensures students == old(students)
    {
      if studentId == [] || choice.NoTeacher? || choice.id == 0 {
        return SelectionMissing;
      }
      var tIdx := IndexOfKey(teachers, TeacherIdOf, choice.id);
      var sIdx := IndexOfKey(students, StudentIdOf, studentId);
      if tIdx < 0 || sIdx < 0 {
        return NotFound;
      }
      var teacher := teachers[tIdx];
      var student := students[sIdx];
      var classes := if teacher.classes.None? then [] else teacher.classes.value;
      if student.className !in classes {
        classes := classes + [student.className];
      }
      teacher := teacher.(classes := Some(classes));
      teachers := teachers[tIdx := teacher];
      outcome := Mapped(tIdx, sIdx);
    }

    /** `removeTeacher`: unless the confirmation is declined, keep exactly the
        teachers with another id, in order. */
    method RemoveTeacher(id: int, confirmed: bool)
      modifies this
      ensures teachers == if confirmed then RemoveKey(old(teachers), TeacherIdOf, id)
                          else old(teachers)
      ensures students == old(students)
    {
      if !confirmed {
        return;
      }
      teachers := RemoveKey(teachers, TeacherIdOf, id);
    }

    /** `removeStudent`: unless the confirmation is declined, keep exactly the
        students with another id, in order. */
    method RemoveStudent(id: string, confirmed: bool)
      modifies this
      ensures students == if confirmed then RemoveKey(old(students), StudentIdOf, id)
                          else old(students)
      ensures teachers == old(teachers)
    {
      if !confirmed {
        return;
      }
      students := RemoveKey(students, StudentIdOf, id);
    }
  }
}
