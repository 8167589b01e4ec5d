/** The `POST /api/generate-quiz` handler as a total function: request
    validation, the upstream call (an input), fence cleaning, parsing (an input)
    and the structural check of the parsed quiz, with every exit mapped to the
    HTTP response the handler sends. */
module GenerateQuiz {
  import opened Options
  import opened Json
  import opened Fences
  import Text

  /** The request body after `req.json()`. A field the body lacks is `None`;
      the question count is taken as an integer. */
  datatype QuizRequest = QuizRequest(
    topic: Option<string>,
    subject: Option<string>,
    grade: Option<string>,
    numQuestions: Option<int>,
    difficulty: Option<string>)

  /** The five fields the handler insists on. */
  datatype Field = Topic | Subject | Grade | NumQuestions | Difficulty

  /** JavaScript truthiness of one request field: present, and not `""` or `0`. */
  predicate Supplied(req: QuizRequest, f: Field) {
    match f
    case Topic => req.topic.Some? && req.topic.value != ""
    case Subject => req.subject.Some? && req.subject.value != ""
    case Grade => req.grade.Some? && req.grade.value != ""
    case NumQuestions => req.numQuestions.Some? && req.numQuestions.value != 0
    case Difficulty => req.difficulty.Some? && req.difficulty.value != ""
  }

  const MinQuestions: int := 1
  const MaxQuestions: int := 10

  datatype Rejection = MissingFields | CountOutOfRange

  const MissingFieldsMessage: string := "Missing required fields"
  const CountOutOfRangeMessage: string := "Number of questions must be between 1 and 10"

  function RejectionMessage(r: Rejection): string {
    match r
    case MissingFields => MissingFieldsMessage
    case CountOutOfRange => CountOutOfRangeMessage
  }

  /** The two input checks, in the handler's order: a falsy field first, then
      the range of the question count. */
  function ValidateRequest(req: QuizRequest): (r: Option<Rejection>)
    ensures r == Some(MissingFields) <==> exists f :: !Supplied(req, f)
    ensures r == Some(CountOutOfRange) <==>
              (forall f :: Supplied(req, f)) && req.numQuestions.Some?
              && !(MinQuestions <= req.numQuestions.value <= MaxQuestions)
    ensures r == None <==>
              (forall f :: Supplied(req, f)) && req.numQuestions.Some?
              && MinQuestions <= req.numQuestions.value <= MaxQuestions
  {
    if !Supplied(req, Topic) || !Supplied(req, Subject) || !Supplied(req, Grade)
       || !Supplied(req, NumQuestions) || !Supplied(req, Difficulty)
    then
      Some(MissingFields)
    else if req.numQuestions.value < MinQuestions || req.numQuestions.value > MaxQuestions then
      Some(CountOutOfRange)
    else
      None
  }

  /** What a `throw` carries into the handler's outer `catch`. */
  datatype Thrown = ErrorObject(message: string) | NonError

  /** Outcome of the generator call: it threw, it produced no response object,
      or it produced a response whose `text()` is `text`. */
  datatype Upstream = UpstreamThrew(thrown: Thrown) | NoResponse | ResponseText(text: string)

  /** The HTTP response: 200 with the quiz, or an error status with a JSON body
      `{ error: message }`. */
  datatype Response = Ok(quiz: Value) | Err(status: nat, message: string)

  function Status(r: Response): nat {
    if r.Ok? then 200 else r.status
  }

  const EmptyResponseMessage: string := "Empty response from Gemini"
  const InvalidResponseFormatMessage: string := "Invalid response format from Gemini"
  const InvalidQuizFormatMessage: string := "Invalid quiz format received"
  const InvalidQuestionFormatMessage: string := "Invalid question format in quiz"
  const FallbackMessage: string := "Failed to generate quiz"

  /** The message of the `TypeError` the runtime (V8) throws when a property of
      `null` is read. */
  function NullReadMessage(property: string): string {
    "Cannot read properties of null (reading '" + property + "')"
  }

  /** The outer `catch`: an `Error` keeps its message, anything else gets the
      fallback text. */
  function CaughtResponse(t: Thrown): (r: Response)
    ensures r.Err? && r.status == 500
    ensures t.ErrorObject? ==> r.message == t.message
    ensures t.NonError? ==> r.message == FallbackMessage
  {
    match t
    case ErrorObject(m) => Err(500, m)
    case NonError => Err(500, FallbackMessage)
  }

  /** The per-question test, stated directly on the object's fields. */
  predicate WellFormedQuestion(q: Value) {
    && q.Object?
    && Truthy(if "question" in q.fields then Some(q.fields["question"]) else None)
    && "options" in q.fields && q.fields["options"].Array?
    && |q.fields["options"].items| == 4
    && Truthy(if "correctAnswer" in q.fields then Some(q.fields["correctAnswer"]) else None)
    && Truthy(if "explanation" in q.fields then Some(q.fields["explanation"]) else None)
  }

  /** The shape the handler accepts: an object whose `questions` is an array of
      well-formed questions (possibly none). */
  predicate WellFormedQuiz(quiz: Value) {
    && quiz.Object?
    && "questions" in quiz.fields && quiz.fields["questions"].Array?
    && forall i :: 0 <= i < |quiz.fields["questions"].items| ==>
         WellFormedQuestion(quiz.fields["questions"].items[i])
  }

  datatype QuestionVerdict = Passes | Fails | ThrowsOnNull

  /** The loop body's test of one array element, as JavaScript evaluates it:
      `null` throws on the first property read, any other non-object has only
      `undefined` properties. */
  function CheckQuestion(q: Value): (v: QuestionVerdict)
    ensures v == ThrowsOnNull <==> q.Null?
    ensures v == Passes <==> WellFormedQuestion(q)
  {
    if q.Null? then ThrowsOnNull
    else if !Truthy(Property(q, "question"))
            || !IsArray(Property(q, "options"))
            || |Property(q, "options").value.items| != 4
            || !Truthy(Property(q, "correctAnswer"))
            || !Truthy(Property(q, "explanation"))
    then Fails
    else Passes
  }

  datatype Scan = AllPass | StopsAt(index: nat)

  /** The `for … of` loop: it stops at the first question that does not pass. */
  function ScanQuestions(qs: seq<Value>): (r: Scan)
    ensures r.AllPass? <==> forall i :: 0 <= i < |qs| ==> CheckQuestion(qs[i]) == Passes
    ensures r.StopsAt? ==>
              && r.index < |qs|
              && CheckQuestion(qs[r.index]) != Passes
              && forall i :: 0 <= i < r.index ==> CheckQuestion(qs[i]) == Passes
  {
    if |qs| == 0 then AllPass
    else if CheckQuestion(qs[0]) != Passes then StopsAt(0)
    else
      match ScanQuestions(qs[1..])
      case AllPass => AllPass
      case StopsAt(k) => StopsAt(k + 1)
  }

  /** The structural validation of the parsed quiz (the quiz check, then the
      question loop, then the success response). */
  function CheckQuiz(quiz: Value): (r: Response)
    ensures r.Ok? <==> WellFormedQuiz(quiz)
    ensures r.Ok? ==> r.quiz == quiz
    ensures r.Err? ==> r.status == 500
    ensures quiz.Null? ==> r.message == NullReadMessage("questions")
    ensures !quiz.Null? && !IsArray(Property(quiz, "questions")) ==>
              r.message == InvalidQuizFormatMessage
    ensures !quiz.Null? && IsArray(Property(quiz, "questions")) && r.Err? ==>
              r.message in {InvalidQuestionFormatMessage, NullReadMessage("question")}
  {
    if quiz.Null? then
      Err(500, NullReadMessage("questions"))
    else if !Truthy(Property(quiz, "questions")) || !IsArray(Property(quiz, "questions")) then
      Err(500, InvalidQuizFormatMessage)
    else
      var qs := Property(quiz, "questions").value.items;
      match ScanQuestions(qs)
      case AllPass => Ok(quiz)
      case StopsAt(k) =>
        if CheckQuestion(qs[k]) == ThrowsOnNull then Err(500, NullReadMessage("question"))
        else Err(500, InvalidQuestionFormatMessage)
  }

  /** The whole handler. `upstream` is what the generator call produced and
      `parse` is `JSON.parse`, `None` standing for a thrown `SyntaxError`. */
  function Generate(req: QuizRequest, upstream: Upstream, parse: string -> Option<Value>): (r: Response)
    ensures Status(r) == 400 <==> ValidateRequest(req).Some?
    ensures Status(r) in {200, 400, 500}
    ensures r.Ok? ==> WellFormedQuiz(r.quiz)
  {
    match ValidateRequest(req)
    case Some(rejection) => Err(400, RejectionMessage(rejection))
    case None =>
      match upstream
      case UpstreamThrew(t) => CaughtResponse(t)
      case NoResponse => CaughtResponse(ErrorObject(EmptyResponseMessage))
      case ResponseText(text) =>
        if text == "" then CaughtResponse(ErrorObject(EmptyResponseMessage))
        else ParseAndCheck(CleanResponse(text), parse)
  }

  /** The part of the handler after cleaning: parse, then check the shape. */
  function ParseAndCheck(cleaned: string, parse: string -> Option<Value>): (r: Response)
    ensures r.Ok? ==> WellFormedQuiz(r.quiz)
    ensures r.Err? ==> r.status == 500
  {
    match parse(cleaned)
    case None => Err(500, InvalidResponseFormatMessage)
    case Some(quiz) => CheckQuiz(quiz)
  }

  /** A count of 0 is falsy, so it is reported as a missing field, never as out
      of range. */
  lemma ZeroCountIsMissing(req: QuizRequest, upstream: Upstream, parse: string -> Option<Value>)
    requires req.numQuestions == Some(0)
    ensures Generate(req, upstream, parse) == Err(400, MissingFieldsMessage)
  {
    assert !Supplied(req, NumQuestions);
  }

  /** Both request rejections are decided before the generator is consulted:
      the response does not depend on what it would have produced or on how its
      reply would parse. */
  lemma RejectionPrecedesUpstream(req: QuizRequest,
                                  u1: Upstream, p1: string -> Option<Value>,
                                  u2: Upstream, p2: string -> Option<Value>)
    requires ValidateRequest(req).Some?
    ensures Generate(req, u1, p1) == Generate(req, u2, p2)
                                 == Err(400, RejectionMessage(ValidateRequest(req).value))
  {
  }

  /** The two boundary counts just outside the accepted range. */
  lemma CountJustOutsideRange(req: QuizRequest, upstream: Upstream, parse: string -> Option<Value>)
    requires Supplied(req, Topic) && Supplied(req, Subject) && Supplied(req, Grade)
    requires Supplied(req, Difficulty)
    requires req.numQuestions in {Some(-1), Some(11)}
    ensures Generate(req, upstream, parse) == Err(400, CountOutOfRangeMessage)
  {
  }

  /** A failed or empty generator call becomes a 500 carrying the thrown message. */
  lemma UpstreamFailureIs500(req: QuizRequest, upstream: Upstream, parse: string -> Option<Value>)
    requires ValidateRequest(req).None?
    requires upstream.UpstreamThrew? || upstream.NoResponse? || upstream == ResponseText("")
    ensures Generate(req, upstream, parse) ==
              if upstream.UpstreamThrew? then CaughtResponse(upstream.thrown)
              else Err(500, EmptyResponseMessage)
  {
  }

  /** A reply that does not parse gives the generic format error, not the
      parser's message. */
  lemma ParseFailureIs500(req: QuizRequest, text: string, parse: string -> Option<Value>)
    requires ValidateRequest(req).None?
    requires text != "" && parse(CleanResponse(text)).None?
    ensures Generate(req, ResponseText(text), parse) == Err(500, InvalidResponseFormatMessage)
  {
  }

  /** For a valid request and a reply that parses, the quiz is returned exactly
      when it has the accepted shape, and then unchanged. */
  lemma AcceptedIffWellFormed(req: QuizRequest, text: string, parse: string -> Option<Value>)
    requires ValidateRequest(req).None?
    requires text != "" && parse(CleanResponse(text)).Some?
    ensures Generate(req, ResponseText(text), parse).Ok? <==> WellFormedQuiz(parse(CleanResponse(text)).value)
    ensures Generate(req, ResponseText(text), parse).Ok? ==>
              Generate(req, ResponseText(text), parse).quiz == parse(CleanResponse(text)).value
  {
  }

  /** A quiz without a `questions` array is refused before any question is
      looked at. */
  lemma MissingQuestionsArray(quiz: Value)
    requires !quiz.Null?
    requires !(quiz.Object? && "questions" in quiz.fields && quiz.fields["questions"].Array?)
    ensures CheckQuiz(quiz) == Err(500, InvalidQuizFormatMessage)
  {
  }

  /** The first question that does not pass decides the error: a malformed one
      gives the question-format error, whatever follows it. */
  lemma FirstOffendingQuestion(quiz: Value, k: nat)
    requires quiz.Object? && "questions" in quiz.fields && quiz.fields["questions"].Array?
    requires k < |quiz.fields["questions"].items|
    requires forall i :: 0 <= i < k ==> WellFormedQuestion(quiz.fields["questions"].items[i])
    requires !WellFormedQuestion(quiz.fields["questions"].items[k])
    ensures CheckQuiz(quiz) ==
              if quiz.fields["questions"].items[k].Null? then Err(500, NullReadMessage("question"))
              else Err(500, InvalidQuestionFormatMessage)
  {
    var qs := quiz.fields["questions"].items;
    var scan := ScanQuestions(qs);
    assert CheckQuestion(qs[k]) != Passes;
    assert scan.StopsAt?;
  }

  /** A fenced reply and the same JSON text without fences reach the parser as
      the same string, so they get the same response. */
  lemma FencedReplyLikeUnfenced(req: QuizRequest, s: string, parse: string -> Option<Value>)
    requires NoBacktick(s) && Text.Trim(s) == s && s != ""
    ensures Generate(req, ResponseText(Fenced(s)), parse) == Generate(req, ResponseText(s), parse)
  {
    FencedCleansLikeUnfenced(s);
    assert |Fenced(s)| > 0;
    ReplyMattersOnlyOnceCleaned(req, Fenced(s), s, parse);
  }

  /** A non-empty reply influences the response only through its cleaned form. */
  lemma ReplyMattersOnlyOnceCleaned(req: QuizRequest, t1: string, t2: string, parse: string -> Option<Value>)
    requires t1 != "" && t2 != "" && CleanResponse(t1) == CleanResponse(t2)
    ensures Generate(req, ResponseText(t1), parse) == Generate(req, ResponseText(t2), parse)
  {
    var c := CleanResponse(t1);
    if ValidateRequest(req).None? {
      assert Generate(req, ResponseText(t1), parse) == ParseAndCheck(c, parse);
      assert Generate(req, ResponseText(t2), parse) == ParseAndCheck(c, parse);
    }
  }

  /** An empty `questions` array passes validation. */
  lemma EmptyQuizAccepted()
    ensures CheckQuiz(Object(map["questions" := Array([])])) == Ok(Object(map["questions" := Array([])]))
  {
    var quiz := Object(map["questions" := Array([])]);
    assert WellFormedQuiz(quiz);
  }

  /** A quiz the model might return: one question with unlabelled options whose
      `correctAnswer` names no option. */
  const UnlabelledQuestion: Value :=
    Object(map["question" := Str("q"),
               "options" := Array([Str("w"), Str("x"), Str("y"), Str("z")]),
               "correctAnswer" := Str("Z"),
               "explanation" := Str("e")])

  const UnlabelledQuiz: Value := Object(map["questions" := Array([UnlabelledQuestion])])

  /** The per-question test looks at presence and truthiness only. */
  lemma UnlabelledQuestionPasses()
    ensures WellFormedQuestion(UnlabelledQuestion)
  {
    var f := UnlabelledQuestion.fields;
    assert f["question"] == Str("q") && f["correctAnswer"] == Str("Z") && f["explanation"] == Str("e");
    assert |f["options"].items| == 4;
  }

  /** The structural check accepts `UnlabelledQuiz` unchanged. */
  lemma UnlabelledQuizAccepted()
    ensures CheckQuiz(UnlabelledQuiz) == Ok(UnlabelledQuiz)
  {
    UnlabelledQuestionPasses();
    assert UnlabelledQuiz.fields["questions"].items == [UnlabelledQuestion];
  }

  /** Neither the answer label nor the count is checked: the one-question
      `UnlabelledQuiz` is returned unchanged for every valid request, whatever
      count it asked for. */
  lemma LabelAndCountUnchecked(req: QuizRequest, text: string, parse: string -> Option<Value>)
    requires ValidateRequest(req).None?
    requires text != "" && parse(CleanResponse(text)) == Some(UnlabelledQuiz)
    ensures Generate(req, ResponseText(text), parse) == Ok(UnlabelledQuiz)
  {
    UnlabelledQuizAccepted();
    AcceptedIffWellFormed(req, text, parse);
  }
}
