/** The teacher's page: a roster that only grows, the selected student, the
    score-trend series and the strengths/improvements split. */
module TeacherDashboard {
  import opened Seqs
  import opened Text

  datatype Assessment = Assessment(title: string, date: string, score: int, max: int)

  /** One `[subject, score]` pair of `Object.entries(subjectScores)`. */
  datatype ScoreEntry = ScoreEntry(subject: string, score: int)

  datatype Student = Student(id: string, name: string, email: string, className: string,
                             enrolled: string, attendance: int,
                             assessments: seq<Assessment>, subjectScores: seq<ScoreEntry>)

  /** One point of the score-trend chart. */
  datatype TrendPoint = TrendPoint(name: string, score: int)

  /** Scores at or above this are strengths. */
  const StrengthThreshold: int := 75

  const Subjects: seq<string> := ["Math", "Science", "English", "History", "Art"]

  function StudentIdOf(s: Student): string { s.id }

  function Keys(entries: seq<ScoreEntry>): (ks: seq<string>)
    ensures |ks| == |entries|
    ensures forall i :: 0 <= i < |ks| ==> ks[i] == entries[i].subject
  {
    seq(|entries|, i requires 0 <= i < |entries| => entries[i].subject)
  }

  /** An object has each key once. */
  predicate DistinctKeys(entries: seq<ScoreEntry>) {
    forall i, j :: 0 <= i < j < |entries| ==> entries[i].subject != entries[j].subject
  }

  /* ---------- Strengths and improvements ---------- */

  /** Subjects scored at or above the threshold, in entry order. */
  function Strengths(entries: seq<ScoreEntry>): seq<string>
    decreases |entries|
  {
    if entries == [] then []
    else
      var last := entries[|entries| - 1];
      Strengths(entries[..|entries| - 1]) + (if last.score >= StrengthThreshold then [last.subject] else [])
  }

  /** Subjects scored below the threshold, in entry order. */
  function Improvements(entries: seq<ScoreEntry>): seq<string>
    decreases |entries|
  {
    if entries == [] then []
    else
      var last := entries[|entries| - 1];
      Improvements(entries[..|entries| - 1]) + (if last.score < StrengthThreshold then [last.subject] else [])
  }

  /** `getSuggestions`: walk the entries once, pushing each subject onto
      strengths (score >= 75) or improvements. */
  method GetSuggestions(subjectScores: seq<ScoreEntry>) returns (strengths: seq<string>, improvements: seq<string>)
    ensures strengths == Strengths(subjectScores)
    ensures improvements == Improvements(subjectScores)
  {
    strengths, improvements := [], [];
    for i := 0 to |subjectScores|
      invariant strengths == Strengths(subjectScores[..i])
      invariant improvements == Improvements(subjectScores[..i])
    {
      assert subjectScores[..i + 1][..i] == subjectScores[..i];
      var entry := subjectScores[i];
      if entry.score >= StrengthThreshold {
        strengths := strengths + [entry.subject];
      } else {
        improvements := improvements + [entry.subject];
      }
    }
    assert subjectScores[..|subjectScores|] == subjectScores;
  }

  /** The split is a partition: every subject key is in strengths or in
      improvements and nothing else is; both lists keep the entries' order,
      and together they are as long as the entries. */
  lemma SuggestionsPartition(entries: seq<ScoreEntry>)
    ensures IsSubsequence(Strengths(entries), Keys(entries))
    ensures IsSubsequence(Improvements(entries), Keys(entries))
    ensures |Strengths(entries)| + |Improvements(entries)| == |entries|
    ensures forall k :: k in Keys(entries) <==> k in Strengths(entries) || k in Improvements(entries)
  {
    SuggestionsInOrder(entries);
    SuggestionsCover(entries);
  }

  /** Both lists are ordered subsequences of the keys. */
  lemma {:induction false} SuggestionsInOrder(entries: seq<ScoreEntry>)
    ensures IsSubsequence(Strengths(entries), Keys(entries))
    ensures IsSubsequence(Improvements(entries), Keys(entries))
    decreases |entries|
  {
    if entries != [] {
      var init, last := entries[..|entries| - 1], entries[|entries| - 1];
      SuggestionsInOrder(init);
      var ks := Keys(entries);
      assert ks == Keys(init) + [last.subject];
      assert ks[..|ks| - 1] == Keys(init);
      var s, m := Strengths(init), Improvements(init);
      if last.score >= StrengthThreshold {
        assert Strengths(entries) == s + [last.subject] && Improvements(entries) == m;
        assert (s + [last.subject])[..|s|] == s;
        SubsequenceExtend(m, Keys(init), last.subject);
      } else {
        assert Strengths(entries) == s && Improvements(entries) == m + [last.subject];
        assert (m + [last.subject])[..|m|] == m;
        SubsequenceExtend(s, Keys(init), last.subject);
      }
    }
  }

  /** Every key lands in one of the lists, each entry contributes exactly
      one subject, and nothing else appears. */
  lemma {:induction false} SuggestionsCover(entries: seq<ScoreEntry>)
    ensures |Strengths(entries)| + |Improvements(entries)| == |entries|
    ensures forall k :: k in Keys(entries) <==> k in Strengths(entries) || k in Improvements(entries)
    decreases |entries|
  {
    if entries != [] {
      var init, last := entries[..|entries| - 1], entries[|entries| - 1];
      SuggestionsCover(init);
      assert Keys(entries) == Keys(init) + [last.subject];
    }
  }

  /** With distinct keys, a subject is a strength exactly when its score is
      at least 75 and needs improvement exactly when it is below, so no
      subject is in both lists. */
  lemma {:induction false} SuggestionsByScore(entries: seq<ScoreEntry>, i: nat)
    requires DistinctKeys(entries) && i < |entries|
    ensures entries[i].subject in Strengths(entries) <==> entries[i].score >= StrengthThreshold
    ensures entries[i].subject in Improvements(entries) <==> entries[i].score < StrengthThreshold
    decreases |entries|
  {
    var init, last := entries[..|entries| - 1], entries[|entries| - 1];
    SuggestionsInOrder(init);
    if i < |entries| - 1 {
      SuggestionsByScore(init, i);
      assert entries[i] == init[i];
      assert entries[i].subject != last.subject;
    } else {
      if last.subject in Strengths(init) {
        SubsequenceMembers(Strengths(init), Keys(init), last.subject);
        assert false;
      }
      if last.subject in Improvements(init) {
        SubsequenceMembers(Improvements(init), Keys(init), last.subject);
        assert false;
      }
    }
  }

  /** No subject is both a strength and an area for improvement. */
  lemma SuggestionsDisjoint(entries: seq<ScoreEntry>)
    requires DistinctKeys(entries)
    ensures forall k :: !(k in Strengths(entries) && k in Improvements(entries))
  {
    SuggestionsPartition(entries);
    forall k | k in Strengths(entries) && k in Improvements(entries) ensures false {
      SubsequenceMembers(Strengths(entries), Keys(entries), k);
      var i :| 0 <= i < |entries| && Keys(entries)[i] == k;
      SuggestionsByScore(entries, i);
    }
  }

  /** Every subject scored 0, as for a freshly added student. */
  function ZeroScores(): seq<ScoreEntry> {
    [ScoreEntry("Math", 0), ScoreEntry("Science", 0), ScoreEntry("English", 0),
     ScoreEntry("History", 0), ScoreEntry("Art", 0)]
  }

  /** When every score is below 75 there is no strength, and every subject
      needs improvement, in entry order. */
  lemma {:induction false} AllBelowThreshold(entries: seq<ScoreEntry>)
    requires forall i :: 0 <= i < |entries| ==> entries[i].score < StrengthThreshold
    ensures Strengths(entries) == []
    ensures Improvements(entries) == Keys(entries)
    decreases |entries|
  {
    if entries != [] {
      var init := entries[..|entries| - 1];
      AllBelowThreshold(init);
      assert Keys(entries) == Keys(init) + [entries[|entries| - 1].subject];
    }
  }

  /** A fresh student has no strength, and all five subjects need
      improvement, in the fixed subject order. */
  lemma ZeroScoresNeedImprovement()
    ensures Strengths(ZeroScores()) == []
    ensures Improvements(ZeroScores()) == Subjects
  {
    AllBelowThreshold(ZeroScores());
    assert Keys(ZeroScores()) == Subjects;
  }

  /* ---------- Lookup and the trend series ---------- */

  /** `students.find(s => s.id === id)`: the first student with that id. */
  function FindStudent(students: seq<Student>, id: string): (r: Option<Student>)
    ensures r.Some? ==> r.value in students && r.value.id == id
    ensures r.Some? ==> exists i :: 0 <= i < |students| && r.value == students[i]
                                    && forall j :: 0 <= j < i ==> students[j].id != id
    ensures r.None? <==> forall s :: s in students ==> s.id != id
  {
    var i := IndexOfKey(students, StudentIdOf, id);
    if i < 0 then
      assert forall s :: s in students ==> s.id != id by {
        forall s | s in students ensures s.id != id {
          var k :| 0 <= k < |students| && students[k] == s;
          assert StudentIdOf(students[k]) != id;
        }
      }
      None
    else
      assert StudentIdOf(students[i]) == id;
      assert forall j :: 0 <= j < i ==> students[j].id != id by {
        forall j | 0 <= j < i ensures students[j].id != id {
          assert StudentIdOf(students[j]) != id;
        }
      }
      Some(students[i])
  }

  /** `assessments.map(a => ({ name: a.title, score: a.score }))`. */
  function ScoreTrend(assessments: seq<Assessment>): (points: seq<TrendPoint>)
    ensures |points| == |assessments|
    ensures forall i :: 0 <= i < |points| ==>
              points[i].name == assessments[i].title && points[i].score == assessments[i].score
    decreases |assessments|
  {
    if assessments == [] then []
    else
      var init := assessments[..|assessments| - 1];
      var a := assessments[|assessments| - 1];
      ScoreTrend(init) + [TrendPoint(a.title, a.score)]
  }

  /** The series of a longer history extends the series of its start. */
  lemma {:induction false} ScoreTrendAppend(xs: seq<Assessment>, ys: seq<Assessment>)
    ensures ScoreTrend(xs + ys) == ScoreTrend(xs) + ScoreTrend(ys)
    decreases |ys|
  {
    if ys != [] {
      var ys0 := ys[..|ys| - 1];
      ScoreTrendAppend(xs, ys0);
      assert (xs + ys)[..|xs + ys| - 1] == xs + ys0;
    } else {
      assert xs + ys == xs;
    }
  }

  /* ---------- The roster ---------- */

  /** The student at position i has id "s" followed by i + 1. */
  predicate SequentialIds(students: seq<Student>) {
    forall i :: 0 <= i < |students| ==> students[i].id == StudentId(i + 1)
  }

  /** Sequentially numbered students have pairwise distinct ids. */
  lemma SequentialIdsDistinct(students: seq<Student>)
    requires SequentialIds(students)
    ensures forall i, j :: 0 <= i < j < |students| ==> students[i].id != students[j].id
  {
    forall i, j | 0 <= i < j < |students| ensures students[i].id != students[j].id {
      if students[i].id == students[j].id {
        StudentIdInjective(i + 1, j + 1);
      }
    }
  }

  /** The record `handleAddStudent` appends as the roster's next student. */
  function NewStudent(count: nat, name: string, email: string, className: string,
                      enrolled: string): Student
  {
    Student(StudentId(count + 1), name, email, className, enrolled, 100,
            [Assessment("Quiz 1", "2024-10-25", 0, 100)], ZeroScores())
  }

  /** The three students the page starts with. */
  function DefaultStudents(): seq<Student> {
    [ Student("s1", "Emily Davis", "emily@school.com", "Grade 10A", "Sep 1, 2024", 95,
              [ Assessment("Quiz 1", "2024-09-15", 85, 100), Assessment("Midterm", "2024-10-01", 78, 100),
                Assessment("Quiz 2", "2024-10-15", 92, 100), Assessment("Assignment 1", "2024-10-20", 88, 100) ],
              [ ScoreEntry("Math", 86), ScoreEntry("Science", 89), ScoreEntry("English", 95),
                ScoreEntry("History", 82), ScoreEntry("Art", 78) ]),
      Student("s2", "James Wilson", "james@school.com", "Grade 10A", "Sep 1, 2024", 92,
              [ Assessment("Quiz 1", "2024-09-15", 72, 100), Assessment("Midterm", "2024-10-01", 68, 100),
                Assessment("Quiz 2", "2024-10-15", 75, 100), Assessment("Assignment 1", "2024-10-20", 80, 100) ],
              [ ScoreEntry("Math", 75), ScoreEntry("Science", 78), ScoreEntry("English", 81),
                ScoreEntry("History", 70), ScoreEntry("Art", 68) ]),
      Student("s3", "Rohan Verma", "rohan@school.com", "Grade 10A", "Sep 1, 2024", 88,
              [ Assessment("Quiz 1", "2024-09-15", 90, 100), Assessment("Midterm", "2024-10-01", 94, 100),
                Assessment("Quiz 2", "2024-10-15", 91, 100), Assessment("Assignment 1", "2024-10-20", 89, 100) ],
              [ ScoreEntry("Math", 92), ScoreEntry("Science", 94), ScoreEntry("English", 90),
                ScoreEntry("History", 88), ScoreEntry("Art", 85) ]) ]
  }

  /** The page's roster and selection. The roster only grows, so the ids
      stay sequential and the selected id always names a student. */
  class TeacherState {
    var students: seq<Student>
    var selectedId: string

    ghost predicate Valid()
      reads this
    {
      SequentialIds(students) && FindStudent(students, selectedId).Some?
    }

    /** Start from the three default students with the first one selected. */
    constructor ()
      ensures Valid()
      ensures students == DefaultStudents() && selectedId == "s1"
    {
      var initial := DefaultStudents();
      assert DigitChar(1) == '1' && DigitChar(2) == '2' && DigitChar(3) == '3';
      assert initial[0].id == StudentId(1);
      assert initial[1].id == StudentId(2);
      assert initial[2].id == StudentId(3);
      assert initial[0] in initial;
      students := initial;
      selectedId := initial[0].id;
    }

    /** `handleAddStudent`: without a name or an email nothing changes;
        otherwise one student with the fixed defaults is appended. */
    method AddStudent(name: string, email: string, className: string, enrolled: string)
      returns (added: bool)
      requires Valid()
      modifies this
      ensures Valid()
      ensures added <==> name != [] && email != []
      ensures students == if added then old(students) + [NewStudent(|old(students)|, name, email, className, enrolled)]
                          else old(students)
      ensures selectedId == old(selectedId)
    {
      if name == [] || email == [] {
        return false;
      }
      var student := Student("s" + NatToString(|students| + 1), name, email, className, enrolled, 100,
                             [Assessment("Quiz 1", "2024-10-25", 0, 100)],
                             [ScoreEntry("Math", 0), ScoreEntry("Science", 0), ScoreEntry("English", 0),
                              ScoreEntry("History", 0), ScoreEntry("Art", 0)]);
      ghost var found := FindStudent(students, selectedId).value;
      students := students + [student];
      assert found in students;
      added := true;
    }

    /** Picking the student at `index` from the roster (the table's View
        button or the selector); only listed students can be picked. */
    method Select(index: nat)
      requires Valid() && index < |students|
      modifies this
      ensures Valid()
      ensures selectedId == old(students)[index].id && students == old(students)
    {
      selectedId := students[index].id;
      assert students[index] in students;
    }

    /** `selectedStudent`: never undefined, and it carries the selected id. */
    function SelectedStudent(): (s: Student)
      reads this
      requires Valid()
      ensures s in students && s.id == selectedId
    {
      FindStudent(students, selectedId).value
    }

    /** `scoreTrendData`: one point per assessment of the selected student. */
    function ScoreTrendData(): (points: seq<TrendPoint>)
      reads this
      requires Valid()
      ensures |points| == |SelectedStudent().assessments|
      ensures forall i :: 0 <= i < |points| ==>
                points[i] == TrendPoint(SelectedStudent().assessments[i].title,
                                        SelectedStudent().assessments[i].score)
    {
      ScoreTrend(SelectedStudent().assessments)
    }
  }
}
