/**
 * The question catalog (src/controllers/questionController.ts): an
 * in-memory list of questions that submissions append to, lookups that take
 * the first match, and the defaults filled in when an answer or an
 * explanation is missing or empty.
 */
module QuestionController {
  import opened Maybe
  import opened Text
  import opened Seqs

  datatype Question = Question(
    id: string,
    question: string,
    category: string,
    subcategory: string,
    required: bool,
    helpText: Option<string>)

  /** An answer to a question (`QuestionResponse`), as far as the catalog reads it. */
  datatype QuestionResponse = QuestionResponse(questionId: string, response: string, citations: seq<string>)

  /**
   * A value of a parsed request body: absent, `null`, a string, or any other
   * JSON value (a number, a boolean, an object), of which only its
   * truthiness matters here.
   */
  datatype JsValue = Undefined | Null | Str(text: string) | Other(truthy: bool)

  predicate Truthy(v: JsValue) {
    match v
    case Undefined => false
    case Null => false
    case Str(text) => text != ""
    case Other(truthy) => truthy
  }

  const NoAnswer: string := "No answer available"
  const NoExplanation: string := "No explanation available"
  const NoExplanationProvided: string := "No explanation provided"
  const QuestionRequired: string := "Question is required and must be a non-empty string"

  /** `q${n}`: the id the catalog gives its `n`-th question. */
  function QuestionId(n: nat): string {
    "q" + Decimal(n)
  }

  lemma QuestionIdInjective(m: nat, n: nat)
    requires QuestionId(m) == QuestionId(n)
    ensures m == n
  {
    assert Decimal(m) == QuestionId(m)[1..] == QuestionId(n)[1..] == Decimal(n);
    RadixInjective(m, n, 10);
  }

  /** The catalog's numbering: question `i` (from 0) has id `q{i + 1}`. */
  predicate SequentialIds(questions: seq<Question>) {
    forall i :: 0 <= i < |questions| ==> questions[i].id == QuestionId(i + 1)
  }

  /** Under the catalog's numbering no two questions share an id. */
  lemma SequentialIdsDistinct(questions: seq<Question>)
    requires SequentialIds(questions)
    ensures forall i, j :: 0 <= i < |questions| && 0 <= j < |questions| && questions[i].id == questions[j].id ==> i == j
  {
    forall i, j | 0 <= i < |questions| && 0 <= j < |questions| && questions[i].id == questions[j].id
      ensures i == j
    {
      QuestionIdInjective(i + 1, j + 1);
    }
  }

  /**
   * `validateQuestionInput`: one fixed message for anything that is not a
   * string with a non-whitespace character, and nothing otherwise.
   */
  function ValidateQuestionInput(question: JsValue): (r: Option<string>)
    ensures r.None? <==> question.Str? && !AllWhitespace(question.text)
    ensures r.Some? ==> r.value == QuestionRequired
  {
    if !Truthy(question) || !question.Str? || Trim(question.text) == "" then Some(QuestionRequired)
    else None
  }

  /**
   * `explanation?.trim() || 'No explanation provided'`: `None` when
   * `explanation` is a value without a `trim` method, for which the call
   * throws a `TypeError`.
   */
  function HelpTextOf(explanation: JsValue): (r: Option<string>)
    ensures r.None? <==> explanation.Other?
    ensures r.Some? ==> r.value != ""
    ensures explanation.Str? && !AllWhitespace(explanation.text) ==> r == Some(Trim(explanation.text))
    ensures explanation.Undefined? || explanation.Null? || (explanation.Str? && AllWhitespace(explanation.text))
      ==> r == Some(NoExplanationProvided)
  {
    match explanation
    case Undefined => Some(NoExplanationProvided)
    case Null => Some(NoExplanationProvided)
    case Str(text) => if Trim(text) != "" then Some(Trim(text)) else Some(NoExplanationProvided)
    case Other(_) => None
  }

  /**
   * `createNewQuestion` for a catalog holding `count` questions: the next
   * id, the trimmed text, the fixed category and subcategory, not required,
   * and the explanation's help text; `None` when computing the help text
   * throws.
   */
  function CreateNewQuestion(count: nat, question: string, explanation: JsValue): (r: Option<Question>)
    ensures r.None? <==> HelpTextOf(explanation).None?
    ensures r.Some? ==>
      && r.value.id == QuestionId(count + 1)
      && r.value.category == "User Submitted" && r.value.subcategory == "General" && !r.value.required
      && r.value.helpText == HelpTextOf(explanation)
    ensures r.Some? && !AllWhitespace(question) ==>
      r.value.question != [] && !IsJsWhitespace(r.value.question[0])
      && !IsJsWhitespace(r.value.question[|r.value.question| - 1])
  {
    match HelpTextOf(explanation)
    case None => None
    case Some(helpText) =>
      Some(Question(QuestionId(count + 1), Trim(question), "User Submitted", "General", false, Some(helpText)))
  }

  /** A created question's text is already trimmed: trimming it again changes nothing. */
  lemma CreatedQuestionIsTrimmed(count: nat, question: string, explanation: JsValue)
    requires CreateNewQuestion(count, question, explanation).Some?
    ensures var q := CreateNewQuestion(count, question, explanation).value;
      Trim(q.question) == q.question && q.question == Trim(question)
  {
    TrimIdempotent(question);
  }

  function HasId(id: string): Question -> bool {
    (q: Question) => q.id == id
  }

  /** `findQuestionById`: the first question with that id. */
  function FindQuestionById(questions: seq<Question>, id: string): (r: Option<Question>)
    ensures r.None? <==> forall i :: 0 <= i < |questions| ==> questions[i].id != id
    ensures r.Some? ==> r.value in questions && r.value.id == id
  {
    Find(questions, HasId(id))
  }

  /** The question found is the one at the first position with that id. */
  lemma FindQuestionFirst(questions: seq<Question>, id: string, i: nat)
    requires i < |questions| && questions[i].id == id
    requires forall j :: 0 <= j < i ==> questions[j].id != id
    ensures FindQuestionById(questions, id) == Some(questions[i])
  {
    FindFirst(questions, HasId(id), i);
  }

  /** Under the catalog's numbering, `q{k}` finds the `k`-th question. */
  lemma SequentialLookup(questions: seq<Question>, k: nat)
    requires SequentialIds(questions) && 1 <= k <= |questions|
    ensures FindQuestionById(questions, QuestionId(k)) == Some(questions[k - 1])
  {
    forall j | 0 <= j < k - 1 ensures questions[j].id != QuestionId(k) {
      if questions[j].id == QuestionId(k) {
        QuestionIdInjective(j + 1, k);
      }
    }
    FindQuestionFirst(questions, QuestionId(k), k - 1);
  }

  /** What `combineQuestionWithAnswer` returns. */
  datatype CombinedQuestion = CombinedQuestion(question: string, answer: string, citation: seq<string>, explanation: string)

  function AnswersQuestion(id: string): QuestionResponse -> bool {
    (a: QuestionResponse) => a.questionId == id
  }

  /**
   * `combineQuestionWithAnswer`: the question's text, the first answer
   * recorded for it, that answer's citations, and its help text, with the
   * defaults for a missing or empty answer or help text.
   */
  function CombineQuestionWithAnswer(answers: seq<QuestionResponse>, q: Question): (r: CombinedQuestion)
    ensures r.question == q.question
    ensures r.answer != "" && r.explanation != ""
    ensures (forall i :: 0 <= i < |answers| ==> answers[i].questionId != q.id) ==>
      r.answer == NoAnswer && r.citation == []
    ensures r.explanation == (if q.helpText.None? || q.helpText.value == "" then NoExplanation else q.helpText.value)
  {
    var answer := Find(answers, AnswersQuestion(q.id));
    CombinedQuestion(
      q.question,
      if answer.Some? && answer.value.response != "" then answer.value.response else NoAnswer,
      if answer.Some? then answer.value.citations else [],
      if q.helpText.Some? && q.helpText.value != "" then q.helpText.value else NoExplanation)
  }

  /** With an answer recorded, the first one for the question supplies the answer and citations. */
  lemma CombineUsesFirstAnswer(answers: seq<QuestionResponse>, q: Question, i: nat)
    requires i < |answers| && answers[i].questionId == q.id
    requires forall j :: 0 <= j < i ==> answers[j].questionId != q.id
    ensures var r := CombineQuestionWithAnswer(answers, q);
      r.answer == (if answers[i].response == "" then NoAnswer else answers[i].response)
      && r.citation == answers[i].citations
  {
    FindFirst(answers, AnswersQuestion(q.id), i);
  }

  /** The body of `getQuestions`. */
  datatype QuestionList = QuestionList(data: seq<CombinedQuestion>, count: nat)

  /** `getQuestions`: one combined record per question, in catalog order, and their number. */
  function GetQuestions(questions: seq<Question>, answers: seq<QuestionResponse>): (r: QuestionList)
    ensures r.count == |questions| == |r.data|
    ensures forall i :: 0 <= i < |questions| ==> r.data[i] == CombineQuestionWithAnswer(answers, questions[i])
  {
    var data := Map(questions, (q: Question) => CombineQuestionWithAnswer(answers, q));
    QuestionList(data, |data|)
  }

  /** How `getQuestionById` answers: 404 with the id in the message, or the combined record. */
  datatype QuestionReply =
    | QuestionNotFound(status: nat, error: string, message: string)
    | QuestionFound(data: CombinedQuestion)

  /** `handleQuestionNotFound`. */
  function HandleQuestionNotFound(id: string): (r: QuestionReply)
    ensures r.QuestionNotFound? && r.status == 404 && r.error == "Question not found"
    ensures EndsWith(r.message, id) && StartsWith(r.message, "No question found with ID: ")
  {
    var r := QuestionNotFound(404, "Question not found", "No question found with ID: " + id);
    assert r.message[|r.message| - |id|..] == id;
    r
  }

  /** `getQuestionById`: 404 when no question has the id, otherwise the first one, combined. */
  function GetQuestionById(questions: seq<Question>, answers: seq<QuestionResponse>, id: string): (r: QuestionReply)
    ensures r.QuestionNotFound? <==> forall i :: 0 <= i < |questions| ==> questions[i].id != id
    ensures r.QuestionNotFound? ==> r == HandleQuestionNotFound(id)
    ensures r.QuestionFound? ==>
      exists q :: q in questions && q.id == id && r.data == CombineQuestionWithAnswer(answers, q)
  {
    match FindQuestionById(questions, id)
    case None => HandleQuestionNotFound(id)
    case Some(q) => QuestionFound(CombineQuestionWithAnswer(answers, q))
  }

  /** Appending the question numbered after the others keeps the numbering. */
  lemma SequentialAppend(questions: seq<Question>, q: Question)
    requires SequentialIds(questions) && q.id == QuestionId(|questions| + 1)
    ensures SequentialIds(questions + [q])
  {
    var all := questions + [q];
    forall i | 0 <= i < |all| ensures all[i].id == QuestionId(i + 1) {
      if i < |questions| { assert all[i] == questions[i]; }
    }
  }

  /**
   * How `submitQuestion` answers: 400 with the validation message, 201 with
   * the stored question's id, text and help text, or 500 when building the
   * question threw.
   */
  datatype SubmitReply =
    | ValidationFailed(message: string)
    | Submitted(id: string, question: string, explanation: string)
    | SubmitFailed

  /** The shared question list `submitQuestion` pushes to, and the answers read beside it. */
  class QuestionCatalog {
    var questions: seq<Question>
    const answers: seq<QuestionResponse>

    constructor(seed: seq<Question>, answers: seq<QuestionResponse>)
      ensures questions == seed && this.answers == answers
    {
      questions := seed;
      this.answers := answers;
    }

    /**
     * `submitQuestion`: a rejected or failed submission leaves the list as
     * it was; an accepted one appends exactly one question at the end,
     * numbered after the ones before it, and keeps the catalog's numbering.
     */
    method SubmitQuestion(question: JsValue, explanation: JsValue) returns (reply: SubmitReply)
      modifies this
      ensures ValidateQuestionInput(question).Some? ==>
        reply == ValidationFailed(QuestionRequired) && questions == old(questions)
      ensures ValidateQuestionInput(question).None? && HelpTextOf(explanation).None? ==>
        reply == SubmitFailed && questions == old(questions)
      ensures reply.Submitted? <==> ValidateQuestionInput(question).None? && HelpTextOf(explanation).Some?
      ensures reply.Submitted? ==>
        var q := CreateNewQuestion(|old(questions)|, question.text, explanation).value;
        && questions == old(questions) + [q]
        && reply == Submitted(q.id, q.question, q.helpText.value)
      ensures SequentialIds(old(questions)) ==> SequentialIds(questions)
    {
      var validationError := ValidateQuestionInput(question);
      if validationError.Some? {
        return ValidationFailed(validationError.value);
      }
      var created := CreateNewQuestion(|questions|, question.text, explanation);
      if created.None? {
        return SubmitFailed;
      }
      var q := created.value;
      assert q.id == QuestionId(|questions| + 1);
      if SequentialIds(questions) {
        SequentialAppend(questions, q);
      }
      questions := questions + [q];
      reply := Submitted(q.id, q.question, q.helpText.value);
    }
  }

  /**
   * Once submitted, a question is what `getQuestionById` finds under the id
   * it was given, provided the list kept the catalog's numbering.
   */
  lemma SubmittedIsFound(questions: seq<Question>, q: Question)
    requires SequentialIds(questions) && q.id == QuestionId(|questions| + 1)
    ensures FindQuestionById(questions + [q], q.id) == Some(q)
  {
    SequentialAppend(questions, q);
    SequentialLookup(questions + [q], |questions| + 1);
  }
}
