/** `validate_quiz` from backend/utils/helpers.py: the structural check a
    generated quiz must pass — a non-empty dict with a non-empty
    `questions` list whose every entry has a question, options holding the
    labels A to D, and a correct answer among those labels. The check stops
    at the first failing question and reports its 1-based number. */
module Helpers {
  import opened Wrappers
  import opened Json
  import Text

  /** The option labels every question must offer. */
  const Labels: seq<string> := ["A", "B", "C", "D"]

  /** The values a correct answer may take. */
  const LabelValues: seq<Value> := [Str("A"), Str("B"), Str("C"), Str("D")]

  /** Why one question is rejected, in the order the checks run. */
  datatype Defect =
    | MissingQuestionField
    | MissingOptionsField
    | MissingCorrectAnswerField
    | MissingRequiredOptions
    | InvalidCorrectAnswer

  /** The outcome of the whole check; `BadQuestion.number` is 1-based. */
  datatype Verdict =
    | Valid
    | InvalidFormat
    | MissingQuestionsField
    | NoQuestionsFound
    | BadQuestion(number: nat, defect: Defect)

  /** `all(key in container for key in keys)`: stops at the first absent
      key; raises if the container does not support `in`. */
  function AllIn(keys: seq<string>, container: Value): (r: Result<bool, PyError>)
    ensures !IsContainer(container) && keys != [] ==> r == Failure(TypeError)
    ensures IsContainer(container) ==> r == Success(forall k :: k in keys ==> Contains(k, container))
  {
    if keys == [] then Success(true)
    else
      var present :- In(keys[0], container);
      if !present then Success(false) else AllIn(keys[1..], container)
  }

  lemma {:induction false} AllInHolds(keys: seq<string>, container: Value)
    ensures AllIn(keys, container) == Success(true) <==>
              forall k :: k in keys ==> In(k, container) == Success(true)
  {
    if keys != [] {
      AllInHolds(keys[1..], container);
      assert forall k :: k in keys <==> k == keys[0] || k in keys[1..];
    }
  }

  /** A dict holding the three keys every question needs. */
  predicate HasQuestionKeys(q: Value)
  {
    q.Obj? && "question" in q.fields && "options" in q.fields && "correct_answer" in q.fields
  }

  /** The body of the loop over questions, for one question `q`: the first
      failing test's defect, None when all pass, or the exception Python
      raises (a question that is a list or a string holding the three key
      names gets past the `in` tests and fails at `q['options']`). */
  function CheckQuestion(q: Value): (r: Result<Option<Defect>, PyError>)
    ensures !IsContainer(q) ==> r == Failure(TypeError)
    ensures IsContainer(q) && !Contains("question", q) ==> r == Success(Some(MissingQuestionField))
    ensures IsContainer(q) && Contains("question", q) && !Contains("options", q) ==>
              r == Success(Some(MissingOptionsField))
    ensures (IsContainer(q) && Contains("question", q) && Contains("options", q)
             && !Contains("correct_answer", q)) ==> r == Success(Some(MissingCorrectAnswerField))
    ensures r == Success(Some(MissingRequiredOptions)) || r == Success(Some(InvalidCorrectAnswer)) ==> q.Obj?
    ensures r.Failure? ==> r.error == TypeError
    // A list or string holding the three key names fails at `q['options']`.
    ensures (IsContainer(q) && !q.Obj? && Contains("question", q) && Contains("options", q)
             && Contains("correct_answer", q)) ==> r == Failure(TypeError)
    // For a dict with the three keys: `in` on the options raises unless they are a container ...
    ensures (HasQuestionKeys(q) && !IsContainer(q.fields["options"])) ==> r == Failure(TypeError)
    // ... a missing label comes first ...
    ensures (HasQuestionKeys(q) && IsContainer(q.fields["options"])
             && exists l :: l in Labels && !Contains(l, q.fields["options"])) ==>
              r == Success(Some(MissingRequiredOptions))
    // ... then an answer outside A-D; otherwise the question passes.
    ensures (HasQuestionKeys(q) && IsContainer(q.fields["options"])
             && (forall l :: l in Labels ==> Contains(l, q.fields["options"]))) ==>
              r == Success(if q.fields["correct_answer"] in LabelValues then None else Some(InvalidCorrectAnswer))
  {
    // The first `in` raises on a non-container; the next two cannot.
    if !IsContainer(q) then Failure(TypeError)
    else if !Contains("question", q) then Success(Some(MissingQuestionField))
    else if !Contains("options", q) then Success(Some(MissingOptionsField))
    else if !Contains("correct_answer", q) then Success(Some(MissingCorrectAnswerField))
    // `q['options']` raises on a list or a string; `q['correct_answer']` then cannot.
    else if !q.Obj? then Failure(TypeError)
    else
      var allLabels :- AllIn(Labels, q.fields["options"]);
      if !allLabels then Success(Some(MissingRequiredOptions))
      else if q.fields["correct_answer"] !in LabelValues then Success(Some(InvalidCorrectAnswer))
      else Success(None)
  }

  /** What an acceptable question is, stated without the order of the tests:
      a dict with the three keys, whose options contain every label (extra
      options are fine) and whose correct answer is one of the labels. */
  predicate WellFormedQuestion(q: Value)
  {
    && q.Obj?
    && "question" in q.fields
    && "options" in q.fields
    && "correct_answer" in q.fields
    && (forall l :: l in Labels ==> In(l, q.fields["options"]) == Success(true))
    && q.fields["correct_answer"] in LabelValues
  }

  lemma CheckQuestionAccepts(q: Value)
    ensures CheckQuestion(q) == Success(None) <==> WellFormedQuestion(q)
  {
    if q.Obj? && "options" in q.fields {
      AllInHolds(Labels, q.fields["options"]);
    }
  }

  /** The loop `for i, q in enumerate(questions, number)`. */
  function ValidateQuestions(qs: seq<Value>, number: nat): (r: Result<Verdict, PyError>)
    ensures r.Success? ==> r.value.Valid? || r.value.BadQuestion?
    ensures r.Success? && r.value.BadQuestion? ==> number <= r.value.number < number + |qs|
  {
    if qs == [] then Success(Valid)
    else
      var defect :- CheckQuestion(qs[0]);
      match defect
      case Some(d) => Success(BadQuestion(number, d))
      case None => ValidateQuestions(qs[1..], number + 1)
  }

  /** The reported question is the first one that fails: all before it pass. */
  lemma {:induction false} FirstFailingQuestion(qs: seq<Value>, number: nat, n: nat, d: Defect)
    ensures ValidateQuestions(qs, number) == Success(BadQuestion(n, d)) <==>
              && number <= n < number + |qs|
              && (forall j :: 0 <= j < n - number ==> CheckQuestion(qs[j]) == Success(None))
              && CheckQuestion(qs[n - number]) == Success(Some(d))
  {
    if qs != [] {
      FirstFailingQuestion(qs[1..], number + 1, n, d);
      if number < n < number + |qs| {
        assert forall j :: 0 <= j < n - number - 1 ==> qs[1..][j] == qs[j + 1];
        assert qs[1..][n - number - 1] == qs[n - number];
      }
    }
  }

  /** The loop returns normally without a defect exactly when every
      question is well formed. */
  lemma {:induction false} AllQuestionsPass(qs: seq<Value>, number: nat)
    ensures ValidateQuestions(qs, number) == Success(Valid) <==>
              forall q :: q in qs ==> WellFormedQuestion(q)
  {
    if qs != [] {
      CheckQuestionAccepts(qs[0]);
      AllQuestionsPass(qs[1..], number + 1);
      assert forall q :: q in qs <==> q == qs[0] || q in qs[1..];
    }
  }

  /** `validate_quiz(quiz_data)`, as a verdict or the exception it raises. */
  function ValidateQuiz(quizData: Value): (r: Result<Verdict, PyError>)
    ensures !quizData.Obj? || quizData.fields == map[] ==> r == Success(InvalidFormat)
    ensures quizData.Obj? && quizData.fields != map[] && "questions" !in quizData.fields ==>
              r == Success(MissingQuestionsField)
    ensures quizData.Obj? && "questions" in quizData.fields
            && (!quizData.fields["questions"].Arr? || quizData.fields["questions"].items == []) ==>
              r == Success(NoQuestionsFound)
  {
    if !Truthy(quizData) || !quizData.Obj? then Success(InvalidFormat)
    else if "questions" !in quizData.fields then Success(MissingQuestionsField)
    else
      var questions := quizData.fields["questions"];
      if !questions.Arr? || |questions.items| == 0 then Success(NoQuestionsFound)
      else ValidateQuestions(questions.items, 1)
  }

  /** A quiz is accepted exactly when it is a dict with a non-empty
      `questions` list of well-formed questions. */
  lemma ValidateQuizAccepts(quizData: Value)
    ensures ValidateQuiz(quizData) == Success(Valid) <==>
              && quizData.Obj?
              && "questions" in quizData.fields
              && quizData.fields["questions"].Arr?
              && quizData.fields["questions"].items != []
              && forall q :: q in quizData.fields["questions"].items ==> WellFormedQuestion(q)
  {
    if quizData.Obj? && "questions" in quizData.fields && quizData.fields["questions"].Arr? {
      AllQuestionsPass(quizData.fields["questions"].items, 1);
    }
  }

  function DefectText(d: Defect): string
  {
    match d
    case MissingQuestionField => "missing 'question' field"
    case MissingOptionsField => "missing 'options' field"
    case MissingCorrectAnswerField => "missing 'correct_answer' field"
    case MissingRequiredOptions => "missing required options (A, B, C, D)"
    case InvalidCorrectAnswer => "has invalid correct_answer"
  }

  /** The message string `validate_quiz` returns beside its flag. */
  function Message(v: Verdict): (r: string)
    ensures r == "Valid" <==> v.Valid?
    ensures v.BadQuestion? ==> |r| > 9 && r[..9] == "Question "
  {
    match v
    case Valid => "Valid"
    case InvalidFormat => "Invalid quiz data format"
    case MissingQuestionsField => "Missing 'questions' field"
    case NoQuestionsFound => "No questions found"
    case BadQuestion(n, d) => "Question " + Text.NatToString(n) + " " + DefectText(d)
  }

  /** In "Question <digits> <text>" the digits end at the first space, so
      the digits and the text can be read back. */
  lemma QuestionMessageSplits(a: string, b: string, x: string, y: string)
    requires forall i :: 0 <= i < |a| ==> '0' <= a[i] <= '9'
    requires forall i :: 0 <= i < |b| ==> '0' <= b[i] <= '9'
    ensures "Question " + a + " " + x == "Question " + b + " " + y ==> a == b && x == y
  {
    var m := "Question " + a + " " + x;
    if m == "Question " + b + " " + y {
      // The digits end at the first space, so both numbers have the same length.
      var n := "Question " + b + " " + y;
      assert m[9 + |a|] == ' ' && n[9 + |b|] == ' ';
      forall k | 9 <= k < 9 + |a| ensures m[k] == a[k - 9] { }
      forall k | 9 <= k < 9 + |b| ensures n[k] == b[k - 9] { }
      assert |a| == |b|;
      assert a == m[9..9 + |a|] == b;
      assert x == m[10 + |a|..] == y;
    }
  }

  /** The message names the verdict unambiguously: different verdicts never
      share a message, so the question number and the defect can be read
      back from it. */
  lemma MessageDeterminesVerdict(v: Verdict, w: Verdict)
    ensures Message(v) == Message(w) ==> v == w
  {
    if Message(v) == Message(w) {
      if v.BadQuestion? && w.BadQuestion? {
        QuestionMessageSplits(Text.NatToString(v.number), Text.NatToString(w.number),
                              DefectText(v.defect), DefectText(w.defect));
        Text.NatToStringInjective(v.number, w.number);
      } else if v.BadQuestion? || w.BadQuestion? {
        // Only question messages start with 'Q'.
        assert Message(v)[0] == Message(w)[0];
      }
    }
  }

  /** `validate_quiz` with its Python result `(ok, message)`: the flag is
      true exactly when the message is "Valid". */
  function ValidateQuizMessage(quizData: Value): (r: Result<(bool, string), PyError>)
    ensures r.Success? <==> ValidateQuiz(quizData).Success?
    ensures r.Success? ==> (r.value.0 <==> r.value.1 == "Valid")
    ensures r.Success? ==> (r.value.0 <==> ValidateQuiz(quizData) == Success(Valid))
    ensures ValidateQuiz(quizData) == Success(Valid) ==> r == Success((true, "Valid"))
    ensures !quizData.Obj? || quizData.fields == map[] ==> r == Success((false, "Invalid quiz data format"))
    ensures quizData.Obj? && quizData.fields != map[] && "questions" !in quizData.fields ==>
              r == Success((false, "Missing 'questions' field"))
    ensures quizData.Obj? && "questions" in quizData.fields
            && (!quizData.fields["questions"].Arr? || quizData.fields["questions"].items == []) ==>
              r == Success((false, "No questions found"))
    ensures ValidateQuiz(quizData).Success? && ValidateQuiz(quizData).value.BadQuestion? ==>
              r == Success((false, "Question " + Text.NatToString(ValidateQuiz(quizData).value.number) + " "
                                   + DefectText(ValidateQuiz(quizData).value.defect)))
  {
    var verdict :- ValidateQuiz(quizData);
    Success((verdict.Valid?, Message(verdict)))
  }
}
