/** The student's page: a fixed list of subject scores, each shown with a
    three-band suggestion. */
module StudentDashboard {

  /** The chip colours the page uses. */
  datatype Color = Success | Primary | Error

  datatype Suggestion = Suggestion(text: string, color: Color)

  datatype SubjectScore = SubjectScore(subject: string, score: int)

  const Excellent: Suggestion := Suggestion("Excellent \U{2013} Keep it up!", Success)
  const Good: Suggestion := Suggestion("Good \U{2013} You are strong in this subject", Primary)
  const NeedsImprovement: Suggestion := Suggestion("Needs Improvement \U{2013} Focus more", Error)

  /** The scores the page shows. */
  const Subjects: seq<SubjectScore> :=
    [SubjectScore("Math", 85), SubjectScore("Science", 89), SubjectScore("English", 97)]

  /** `getSuggestion`: the first band whose lower bound the score reaches. */
  function GetSuggestion(score: int): (s: Suggestion)
    ensures s == Excellent <==> score >= 90
    ensures s == Good <==> 75 <= score < 90
    ensures s == NeedsImprovement <==> score < 75
  {
    if score >= 90 then Excellent
    else if score >= 75 then Good
    else NeedsImprovement
  }

  /** Position of a suggestion in the order of bands, lowest first. */
  function Rank(s: Suggestion): nat {
    if s == Excellent then 2 else if s == Good then 1 else 0
  }

  /** Every score gets exactly one of the three suggestions. */
  lemma GetSuggestionTotal(score: int)
    ensures var s := GetSuggestion(score);
            (s == Excellent && s != Good && s != NeedsImprovement)
            || (s == Good && s != Excellent && s != NeedsImprovement)
            || (s == NeedsImprovement && s != Excellent && s != Good)
  {
  }

  /** Raising a score never moves it to a lower band. */
  lemma GetSuggestionMonotone(a: int, b: int)
    requires a <= b
    ensures Rank(GetSuggestion(a)) <= Rank(GetSuggestion(b))
    ensures GetSuggestion(a) == Excellent ==> GetSuggestion(b) == Excellent
    ensures GetSuggestion(a) != NeedsImprovement ==> GetSuggestion(b) != NeedsImprovement
  {
  }

  /** `subjects.map(s => getSuggestion(s.score))`. */
  function SubjectSuggestions(subjects: seq<SubjectScore>): (r: seq<Suggestion>)
    ensures |r| == |subjects|
    ensures forall i :: 0 <= i < |r| ==> r[i] == GetSuggestion(subjects[i].score)
  {
    seq(|subjects|, i requires 0 <= i < |subjects| => GetSuggestion(subjects[i].score))
  }

  /** The page shows Good for Math (85) and Science (89), and Excellent for
      English (97). */
  lemma FixedSubjectsSuggestions()
    ensures SubjectSuggestions(Subjects) == [Good, Good, Excellent]
  {
  }
}
