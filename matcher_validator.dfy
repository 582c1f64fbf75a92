/** The schema that a questionnaire submission must satisfy before its answers
    are stored: a non-empty array of answers, each naming a question and
    carrying either a usable option or a scaled value. */
module MatcherValidator {
  import opened Js

  /** One element of the submitted `answers` array. Both `optionId` and
      `scaledValue` are nullable but required keys, so `None` is `null`. */
  datatype AnswerInput = AnswerInput(questionId: string, optionId: Option<string>, scaledValue: Option<real>)

  const QuestionIdRequired: string := "questionId is required"
  const EitherRequired: string := "Either optionId or scaledValue is required"
  const AnswersNonEmpty: string := "Answers array cannot be empty"

  /** The refinement rule: a non-null, non-empty option, or a non-null scaled value. */
  predicate Usable(optionId: Option<string>, scaledValue: Option<real>) {
    (optionId.Some? && optionId.value != "") || scaledValue.Some?
  }

  /** An element passes its own checks. */
  predicate ValidAnswer(a: AnswerInput) {
    |a.questionId| >= 1 && Usable(a.optionId, a.scaledValue)
  }

  /** The whole submission passes. */
  predicate ValidBatch(answers: seq<AnswerInput>) {
    |answers| > 0 && forall i :: 0 <= i < |answers| ==> ValidAnswer(answers[i])
  }

  /** The issues reported for one element, in the order its checks run: the
      length check on `questionId` does not stop the refinement from running. */
  function AnswerIssues(a: AnswerInput): (issues: seq<string>)
    ensures issues == [] <==> ValidAnswer(a)
    ensures |a.questionId| == 0 ==> issues[0] == QuestionIdRequired
  {
    (if |a.questionId| < 1 then [QuestionIdRequired] else [])
    + (if Usable(a.optionId, a.scaledValue) then [] else [EitherRequired])
  }

  /** The issues of all elements, element by element. */
  function ElementIssues(answers: seq<AnswerInput>): (issues: seq<string>)
    ensures issues == [] <==> forall i :: 0 <= i < |answers| ==> ValidAnswer(answers[i])
  {
    if answers == [] then []
    else ElementIssues(answers[..|answers| - 1]) + AnswerIssues(answers[|answers| - 1])
  }

  /** `userAnswerSchema.safeParse`: the elements are parsed first and the
      array's length check runs after them; the parsed data is the input
      itself. */
  function SafeParse(answers: seq<AnswerInput>): (r: Result<seq<AnswerInput>, seq<string>>)
    ensures r.Ok? <==> ValidBatch(answers)
    ensures r.Ok? ==> r.value == answers
    ensures r.Err? ==> |r.error| > 0
    ensures answers == [] ==> r == Err([AnswersNonEmpty])
  {
    var issues := ElementIssues(answers) + (if |answers| == 0 then [AnswersNonEmpty] else []);
    assert answers == [] ==> issues == [AnswersNonEmpty];
    if issues == [] then Ok(answers) else Err(issues)
  }

  /** An answer carrying both an option and a scaled value is accepted. */
  lemma BothFieldsAccepted(questionId: string, optionId: string, scaledValue: real)
    requires |questionId| >= 1
    ensures ValidAnswer(AnswerInput(questionId, Some(optionId), Some(scaledValue)))
  {
  }

  /** An empty option together with a null scaled value is rejected, as is
      an element with an empty `questionId`. */
  lemma EmptyOptionRejected(questionId: string)
    ensures AnswerIssues(AnswerInput(questionId, Some(""), None)) ==
            (if questionId == "" then [QuestionIdRequired] else []) + [EitherRequired]
  {
  }
}
