/**
 * The instructor page's quiz form. The draft is a title and a list of
 * questions, each with three option texts and a correct answer stored as a
 * TEXT (a copy of the option's value, not its index). Every event handler is
 * a total function from the old draft to the new one; the in-place writes the
 * page performs on a shallow copy are modelled as pure record updates.
 */
module QuizAuthoring {
  import opened JsValue

  datatype Question = Question(text: string, options: seq<string>, correctAnswer: string)
  datatype QuizDraft = QuizDraft(title: string, questions: seq<Question>)

  /** The form's state: the draft, whether the form is shown, and the page's error banner. */
  datatype Session = Session(draft: QuizDraft, formOpen: bool, courseId: Option<int>, error: Option<string>)

  /** The question a new draft starts with and "Add Question" appends. */
  const BlankQuestion: Question := Question("", ["", "", ""], "")

  /** The draft the page starts with and returns to after a successful create. */
  const InitialDraft: QuizDraft := QuizDraft("", [BlankQuestion])

  const CreateQuizError: string := "Could not create quiz"

  /** Every question keeps exactly three options: no handler adds or removes one. */
  predicate WellShaped(d: QuizDraft)
  {
    forall i :: 0 <= i < |d.questions| ==> |d.questions[i].options| == 3
  }

  /** The check button of option oIndex is highlighted iff the option's text
      equals the stored answer. */
  predicate ShownCorrect(q: Question, oIndex: nat)
    requires oIndex < |q.options|
  {
    q.correctAnswer == q.options[oIndex]
  }

  /** The stored answer is the text of one of the current options. */
  predicate AnswerIsAnOption(q: Question)
  {
    exists i :: 0 <= i < |q.options| && q.options[i] == q.correctAnswer
  }

  /** Typing in the title field. */
  function SetTitle(d: QuizDraft, title: string): (r: QuizDraft)
    ensures r.title == title && r.questions == d.questions
  {
    d.(title := title)
  }

  /** `addQuestion`: append one blank question. */
  function AddQuestion(d: QuizDraft): (r: QuizDraft)
    ensures r.title == d.title
    ensures |r.questions| == |d.questions| + 1
    ensures r.questions[..|d.questions|] == d.questions
    ensures r.questions[|d.questions|] == BlankQuestion
  {
    d.(questions := d.questions + [BlankQuestion])
  }

  /** Two drafts agree on everything except question qIndex. */
  predicate SameExceptQuestion(d: QuizDraft, r: QuizDraft, qIndex: nat)
  {
    && r.title == d.title
    && |r.questions| == |d.questions|
    && forall j :: 0 <= j < |d.questions| && j != qIndex ==> r.questions[j] == d.questions[j]
  }

  /** Typing in the text field of question qIndex. */
  function EditQuestionText(d: QuizDraft, qIndex: nat, text: string): (r: QuizDraft)
    requires qIndex < |d.questions|
    ensures SameExceptQuestion(d, r, qIndex)
    ensures r.questions[qIndex].text == text
    ensures r.questions[qIndex].options == d.questions[qIndex].options
    ensures r.questions[qIndex].correctAnswer == d.questions[qIndex].correctAnswer
  {
    var q := d.questions[qIndex];
    d.(questions := d.questions[qIndex := q.(text := text)])
  }

  /** Typing in option oIndex of question qIndex. The stored answer is NOT
      updated, even when it was the old text of this option. */
  function EditOption(d: QuizDraft, qIndex: nat, oIndex: nat, text: string): (r: QuizDraft)
    requires qIndex < |d.questions| && oIndex < |d.questions[qIndex].options|
    ensures SameExceptQuestion(d, r, qIndex)
    ensures r.questions[qIndex].text == d.questions[qIndex].text
    ensures r.questions[qIndex].correctAnswer == d.questions[qIndex].correctAnswer
    ensures |r.questions[qIndex].options| == |d.questions[qIndex].options|
    ensures r.questions[qIndex].options[oIndex] == text
    ensures forall k :: 0 <= k < |d.questions[qIndex].options| && k != oIndex ==>
      r.questions[qIndex].options[k] == d.questions[qIndex].options[k]
  {
    var q := d.questions[qIndex];
    d.(questions := d.questions[qIndex := q.(options := q.options[oIndex := text])])
  }

  /** Clicking the check button of option oIndex: copy its current text into
      the stored answer. */
  function MarkCorrect(d: QuizDraft, qIndex: nat, oIndex: nat): (r: QuizDraft)
    requires qIndex < |d.questions| && oIndex < |d.questions[qIndex].options|
    ensures SameExceptQuestion(d, r, qIndex)
    ensures r.questions[qIndex].text == d.questions[qIndex].text
    ensures r.questions[qIndex].options == d.questions[qIndex].options
    ensures ShownCorrect(r.questions[qIndex], oIndex)
    ensures AnswerIsAnOption(r.questions[qIndex])
    // every option with the same text is highlighted too, and no other
    ensures forall k :: 0 <= k < |r.questions[qIndex].options| ==>
      (ShownCorrect(r.questions[qIndex], k) <==> d.questions[qIndex].options[k] == d.questions[qIndex].options[oIndex])
  {
    var q := d.questions[qIndex];
    d.(questions := d.questions[qIndex := q.(correctAnswer := q.options[oIndex])])
  }

  /** "Add Quiz" on a course card: remember the course and show the form. */
  function OpenForm(s: Session, courseId: int): (r: Session)
    ensures r.formOpen && r.courseId == Some(courseId)
    ensures r.draft == s.draft && r.error == s.error
  {
    s.(formOpen := true, courseId := Some(courseId))
  }

  /** `handleCreateQuiz` once the request has completed: on success the form
      closes and the draft is reset; on failure the draft is kept and the
      error banner is set. */
  function SubmitResult(s: Session, succeeded: bool): (r: Session)
    ensures succeeded ==> r.draft == InitialDraft && !r.formOpen && r.error == s.error
    ensures !succeeded ==> r.draft == s.draft && r.formOpen == s.formOpen && r.error == Some(CreateQuizError)
    ensures r.courseId == s.courseId
  {
    if succeeded then s.(formOpen := false, draft := InitialDraft)
    else s.(error := Some(CreateQuizError))
  }

  /** "Cancel": hide the form; the draft stays as it is. */
  function Cancel(s: Session): (r: Session)
    ensures !r.formOpen
    ensures r.draft == s.draft && r.courseId == s.courseId && r.error == s.error
  {
    s.(formOpen := false)
  }

  /** The initial draft is well shaped, and every handler keeps drafts well
      shaped: every question always has exactly three options. */
  lemma WellShapedPreserved(d: QuizDraft, title: string, qIndex: nat, oIndex: nat, text: string, s: Session, ok: bool)
    requires WellShaped(d) && WellShaped(s.draft)
    ensures WellShaped(InitialDraft)
    ensures WellShaped(SetTitle(d, title))
    ensures WellShaped(AddQuestion(d))
    ensures qIndex < |d.questions| ==> WellShaped(EditQuestionText(d, qIndex, text))
    ensures qIndex < |d.questions| && oIndex < 3 ==> WellShaped(EditOption(d, qIndex, oIndex, text))
    ensures qIndex < |d.questions| && oIndex < 3 ==> WellShaped(MarkCorrect(d, qIndex, oIndex))
    ensures WellShaped(SubmitResult(s, ok).draft) && WellShaped(Cancel(s).draft)
  {
  }

  /** Editing the text of the marked option leaves the stored answer behind:
      afterwards that option is no longer highlighted, and if no other option
      had the old text, the answer matches no option at all. */
  lemma EditAfterMarkLeavesStaleAnswer(d: QuizDraft, qIndex: nat, oIndex: nat, text: string)
    requires qIndex < |d.questions| && oIndex < |d.questions[qIndex].options|
    requires text != d.questions[qIndex].options[oIndex]
    ensures var old_ := d.questions[qIndex].options[oIndex];
      var r := EditOption(MarkCorrect(d, qIndex, oIndex), qIndex, oIndex, text);
      && r.questions[qIndex].correctAnswer == old_
      && !ShownCorrect(r.questions[qIndex], oIndex)
      && ((forall k :: 0 <= k < |d.questions[qIndex].options| && k != oIndex ==> d.questions[qIndex].options[k] != old_)
          ==> !AnswerIsAnOption(r.questions[qIndex]))
  {
  }

  /** Starting from a fresh draft, two "Add Question" clicks give three blank
      questions; marking "B" among "A", "B", "C" and then renaming it "B2"
      keeps the stored answer "B". */
  lemma AuthoringExample()
    ensures var d := AddQuestion(AddQuestion(InitialDraft));
      |d.questions| == 3 && forall i :: 0 <= i < 3 ==> d.questions[i] == BlankQuestion
    ensures var d0 := QuizDraft("Q", [Question("", ["A", "B", "C"], "")]);
      var d1 := MarkCorrect(d0, 0, 1);
      var d2 := EditOption(d1, 0, 1, "B2");
      && d1.questions[0].correctAnswer == "B"
      && d2.questions[0].correctAnswer == "B"
      && d2.questions[0].options == ["A", "B2", "C"]
      && !AnswerIsAnOption(d2.questions[0])
  {
  }
}
