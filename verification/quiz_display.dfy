/** The quiz-taking component: its five pieces of state, the three handlers, the
    guards the rendered buttons put in front of them, and the final result band. */
module QuizDisplay {
  import opened Options

  datatype Question = Question(question: string, options: seq<string>, correctAnswer: string, explanation: string)

  datatype Quiz = Quiz(questions: seq<Question>)

  /** The component's state. `selectedAnswer` is `null` (None) or the text of the
      chosen option. */
  datatype Session = Session(
    currentQuestion: nat,
    selectedAnswer: Option<string>,
    showExplanation: bool,
    score: nat,
    quizCompleted: bool)

  /** What is on screen: the component with its state, or the fresh page that a
      reload brings back, where no quiz and no score remain. */
  datatype Screen = Taking(session: Session) | Reloaded

  /** A click on option button `option` of the current question, on the next /
      finish button, or on the start-new-quiz button. */
  datatype Action = Choose(option: nat) | Next | StartNewQuiz

  const Initial: Session := Session(0, None, false, 0, false)

  /** The component renders `quiz.questions[currentQuestion]` without a check, so
      it needs a question to show. */
  predicate Displayable(quiz: Quiz) {
    |quiz.questions| >= 1
  }

  /** `option.charAt(0)`: the first character as a string, or "" for "". */
  function OptionLetter(option: string): (letter: string)
    ensures |letter| <= 1 && letter <= option
    ensures |letter| == 1 <==> option != ""
  {
    if option == "" then "" else [option[0]]
  }

  /** JavaScript truthiness of `selectedAnswer`: `null` and "" are falsy. This is
      what disables the option buttons and enables the next button. */
  predicate Locked(s: Session) {
    s.selectedAnswer.Some? && s.selectedAnswer.value != ""
  }

  predicate IsCorrect(quiz: Quiz, s: Session, answer: string)
    requires s.currentQuestion < |quiz.questions|
  {
    OptionLetter(answer) == quiz.questions[s.currentQuestion].correctAnswer
  }

  /** `handleAnswerSelect(answer)`. */
  function SelectAnswer(quiz: Quiz, s: Session, answer: string): (t: Session)
    requires s.currentQuestion < |quiz.questions|
    ensures t.selectedAnswer == Some(answer) && t.showExplanation
    ensures t.currentQuestion == s.currentQuestion && t.quizCompleted == s.quizCompleted
    ensures IsCorrect(quiz, s, answer) ==> t.score == s.score + 1
    ensures !IsCorrect(quiz, s, answer) ==> t.score == s.score
  {
    var score := if IsCorrect(quiz, s, answer) then s.score + 1 else s.score;
    s.(selectedAnswer := Some(answer), showExplanation := true, score := score)
  }

  /** `handleNextQuestion()`. */
  function NextQuestion(quiz: Quiz, s: Session): (t: Session)
    requires s.currentQuestion < |quiz.questions|
    ensures t.selectedAnswer.None? && !t.showExplanation && t.score == s.score
    ensures t.currentQuestion < |quiz.questions|
    ensures s.currentQuestion == |quiz.questions| - 1 ==>
              t.quizCompleted && t.currentQuestion == s.currentQuestion
    ensures s.currentQuestion < |quiz.questions| - 1 ==>
              t.currentQuestion == s.currentQuestion + 1 && t.quizCompleted == s.quizCompleted
  {
    var t := s.(selectedAnswer := None, showExplanation := false);
    if s.currentQuestion == |quiz.questions| - 1 then t.(quizCompleted := true)
    else t.(currentQuestion := s.currentQuestion + 1)
  }

  /** Which clicks reach a handler: the completed view renders only the
      start-new-quiz button; the question view renders the option buttons,
      disabled once an answer is locked, and the next button, disabled until one
      is. */
  predicate Enabled(quiz: Quiz, s: Session, a: Action)
    requires s.currentQuestion < |quiz.questions|
  {
    match a
    case Choose(k) =>
      !s.quizCompleted && !Locked(s) && k < |quiz.questions[s.currentQuestion].options|
    case Next => !s.quizCompleted && Locked(s)
    case StartNewQuiz => s.quizCompleted
  }

  /** One click. A click that reaches no handler changes nothing; after the
      reload the component is gone. */
  function Step(quiz: Quiz, screen: Screen, a: Action): (r: Screen)
    requires screen.Taking? ==> screen.session.currentQuestion < |quiz.questions|
    ensures r.Taking? ==> r.session.currentQuestion < |quiz.questions|
    ensures screen.Reloaded? ==> r.Reloaded?
    ensures r.Reloaded? <==> screen.Reloaded? || (a.StartNewQuiz? && screen.session.quizCompleted)
    ensures screen.Taking? && a.Next? && !Locked(screen.session) ==> r == screen
    ensures screen.Taking? && a.Choose? && (Locked(screen.session) || screen.session.quizCompleted) ==> r == screen
  {
    match screen
    case Reloaded => Reloaded
    case Taking(s) =>
      if !Enabled(quiz, s, a) then screen
      else
        match a
        case Choose(k) => Taking(SelectAnswer(quiz, s, quiz.questions[s.currentQuestion].options[k]))
        case Next => Taking(NextQuestion(quiz, s))
        case StartNewQuiz => Reloaded
  }

  /** A sequence of clicks, in order. */
  function Run(quiz: Quiz, screen: Screen, actions: seq<Action>): (r: Screen)
    requires screen.Taking? ==> screen.session.currentQuestion < |quiz.questions|
    ensures r.Taking? ==> r.session.currentQuestion < |quiz.questions|
    decreases |actions|
  {
    if |actions| == 0 then screen
    else Run(quiz, Step(quiz, screen, actions[0]), actions[1..])
  }

  /** The qualitative verdict on the completed view. */
  datatype Band = Perfect | Passed | KeepPracticing

  /** Perfect at full marks, otherwise a pass at 70% or more; `score >= total * 0.7`
      is compared exactly as `10 * score >= 7 * total`. */
  function ResultBand(score: nat, total: nat): (b: Band)
    ensures b == Perfect <==> score == total
    ensures b == Passed <==> score != total && 10 * score >= 7 * total
    ensures b == KeepPracticing <==> score != total && 10 * score < 7 * total
  {
    if score == total then Perfect
    else if 10 * score >= 7 * total then Passed
    else KeepPracticing
  }

  function BandMessage(b: Band): string {
    match b
    case Perfect => "Perfect score! Excellent job!"
    case Passed => "Good job! You passed the quiz!"
    case KeepPracticing => "Keep practicing! You can do better next time."
  }

  function Rank(b: Band): nat {
    match b
    case KeepPracticing => 0
    case Passed => 1
    case Perfect => 2
  }

  /** Every option text is non-empty, so choosing any option locks the answer. */
  predicate NonEmptyOptions(quiz: Quiz) {
    forall i, j :: 0 <= i < |quiz.questions| && 0 <= j < |quiz.questions[i].options| ==>
      quiz.questions[i].options[j] != ""
  }

  /** Every `correctAnswer` is non-empty, as the handler's truthiness test on it
      guarantees, so an empty option never scores. */
  predicate NonEmptyAnswers(quiz: Quiz) {
    forall i :: 0 <= i < |quiz.questions| ==> quiz.questions[i].correctAnswer != ""
  }

  /** How many questions have been answered: those before the current one, plus
      the current one once an answer is chosen or the quiz is finished. */
  function Answered(s: Session): nat {
    s.currentQuestion + (if s.quizCompleted || s.selectedAnswer.Some? then 1 else 0)
  }

  /** The invariant every reachable state keeps when every option is non-empty. */
  predicate Consistent(quiz: Quiz, s: Session) {
    && s.currentQuestion < |quiz.questions|
    && (s.showExplanation <==> s.selectedAnswer.Some?)
    && (s.selectedAnswer.Some? ==> s.selectedAnswer.value != "")
    && (s.quizCompleted ==> s.selectedAnswer.None?)
    && s.score <= Answered(s)
  }

  lemma InitialConsistent(quiz: Quiz)
    requires Displayable(quiz)
    ensures Consistent(quiz, Initial)
    ensures Initial.score == 0 && !Locked(Initial) && !Initial.quizCompleted
  {
  }

  /** The score bound alone: at most one point per question before the current
      one, plus one for the current question once its answer is locked or the
      quiz is finished. */
  predicate ScoreBounded(quiz: Quiz, s: Session) {
    && s.currentQuestion < |quiz.questions|
    && s.score <= s.currentQuestion + (if s.quizCompleted || Locked(s) then 1 else 0)
  }

  /** With every `correctAnswer` non-empty, every click keeps the score bound,
      empty options included: an empty option neither locks nor scores. */
  lemma StepKeepsScoreBounded(quiz: Quiz, s: Session, a: Action)
    requires NonEmptyAnswers(quiz) && ScoreBounded(quiz, s)
    ensures Step(quiz, Taking(s), a).Taking? ==> ScoreBounded(quiz, Step(quiz, Taking(s), a).session)
  {
  }

  lemma {:induction false} RunKeepsScoreBounded(quiz: Quiz, s: Session, actions: seq<Action>)
    requires NonEmptyAnswers(quiz) && ScoreBounded(quiz, s)
    ensures Run(quiz, Taking(s), actions).Taking? ==>
              ScoreBounded(quiz, Run(quiz, Taking(s), actions).session)
    decreases |actions|
  {
    if |actions| > 0 {
      StepKeepsScoreBounded(quiz, s, actions[0]);
      match Step(quiz, Taking(s), actions[0])
      case Taking(t) => RunKeepsScoreBounded(quiz, t, actions[1..]);
      case Reloaded => ReloadedStays(quiz, actions[1..]);
    }
  }

  /** Every click keeps the invariant. */
  lemma StepKeepsConsistent(quiz: Quiz, s: Session, a: Action)
    requires NonEmptyOptions(quiz) && Consistent(quiz, s)
    ensures Step(quiz, Taking(s), a).Taking? ==> Consistent(quiz, Step(quiz, Taking(s), a).session)
  {
    if Enabled(quiz, s, a) && a.Choose? {
      var q := quiz.questions[s.currentQuestion];
      assert q.options[a.option] != "";
    }
  }

  lemma {:induction false} RunKeepsConsistent(quiz: Quiz, s: Session, actions: seq<Action>)
    requires NonEmptyOptions(quiz) && Consistent(quiz, s)
    ensures Run(quiz, Taking(s), actions).Taking? ==>
              Consistent(quiz, Run(quiz, Taking(s), actions).session)
    decreases |actions|
  {
    if |actions| > 0 {
      StepKeepsConsistent(quiz, s, actions[0]);
      match Step(quiz, Taking(s), actions[0])
      case Taking(t) => RunKeepsConsistent(quiz, t, actions[1..]);
      case Reloaded => ReloadedStays(quiz, actions[1..]);
    }
  }

  /** After the reload nothing of the quiz remains, whatever is clicked. */
  lemma {:induction false} ReloadedStays(quiz: Quiz, actions: seq<Action>)
    ensures Run(quiz, Reloaded, actions) == Reloaded
    decreases |actions|
  {
    if |actions| > 0 {
      ReloadedStays(quiz, actions[1..]);
    }
  }

  /** The counting invariant: from the initial state, the score never exceeds
      the number of questions answered, so it never exceeds the quiz length nor
      the running denominator `currentQuestion + 1` that is shown. It holds when
      every option is non-empty, and also when every `correctAnswer` is, which is
      what the handler guarantees. */
  lemma ScoreNeverExceedsAnswered(quiz: Quiz, actions: seq<Action>)
    requires Displayable(quiz) && (NonEmptyOptions(quiz) || NonEmptyAnswers(quiz))
    ensures Run(quiz, Taking(Initial), actions).Taking? ==>
              var s := Run(quiz, Taking(Initial), actions).session;
              s.score <= Answered(s) <= |quiz.questions| && s.score <= s.currentQuestion + 1
  {
    if NonEmptyOptions(quiz) {
      RunKeepsConsistent(quiz, Initial, actions);
    } else {
      RunKeepsScoreBounded(quiz, Initial, actions);
    }
  }

  /** Once an answer is locked, option clicks are ignored, so one question can
      raise the score at most once. */
  lemma SecondChoiceIgnored(quiz: Quiz, s: Session, j: nat, k: nat)
    requires s.currentQuestion < |quiz.questions|
    requires !s.quizCompleted && !Locked(s)
    requires j < |quiz.questions[s.currentQuestion].options|
    requires quiz.questions[s.currentQuestion].options[j] != ""
    ensures Step(quiz, Step(quiz, Taking(s), Choose(j)), Choose(k)) == Step(quiz, Taking(s), Choose(j))
    ensures Step(quiz, Taking(s), Choose(j)).session.score <= s.score + 1
  {
  }

  /** The next button is disabled until an answer is locked: clicking it
      earlier changes nothing. */
  lemma NextNeedsSelection(quiz: Quiz, s: Session)
    requires s.currentQuestion < |quiz.questions| && !Locked(s)
    ensures Step(quiz, Taking(s), Next) == Taking(s)
  {
  }

  /** Without non-empty options the lock fails: an empty option is falsy, stays
      clickable, and when it matches an empty `correctAnswer` it scores twice on
      one question. */
  lemma EmptyOptionDoesNotLock()
    ensures var quiz := Quiz([Question("q", ["", "B) b", "C) c", "D) d"], "", "e")]);
            Run(quiz, Taking(Initial), [Choose(0), Choose(0)]) == Taking(Session(0, Some(""), true, 2, false))
  {
    var quiz := Quiz([Question("q", ["", "B) b", "C) c", "D) d"], "", "e")]);
    var s1 := Session(0, Some(""), true, 1, false);
    assert Step(quiz, Taking(Initial), Choose(0)) == Taking(s1);
    assert Step(quiz, Taking(s1), Choose(0)) == Taking(Session(0, Some(""), true, 2, false));
    assert [Choose(0), Choose(0)][1..] == [Choose(0)];
  }

  /** The completed view is terminal: the only click with an effect is the
      reload. */
  lemma {:induction false} CompletedIsTerminal(quiz: Quiz, s: Session, actions: seq<Action>)
    requires s.currentQuestion < |quiz.questions| && s.quizCompleted
    ensures Run(quiz, Taking(s), actions) in {Taking(s), Reloaded}
    decreases |actions|
  {
    if |actions| > 0 {
      match Step(quiz, Taking(s), actions[0])
      case Taking(t) =>
        assert t == s;
        CompletedIsTerminal(quiz, s, actions[1..]);
      case Reloaded => ReloadedStays(quiz, actions[1..]);
    }
  }

  /** Choose the given option, then move on, for each question in turn. */
  function AnswerEach(picks: seq<nat>): (actions: seq<Action>)
    ensures |actions| == 2 * |picks|
  {
    if |picks| == 0 then [] else [Choose(picks[0]), Next] + AnswerEach(picks[1..])
  }

  /** `picks` names, for each question from `from` on, a non-empty option whose
      letter is that question's `correctAnswer`. */
  predicate CorrectPicks(quiz: Quiz, picks: seq<nat>, from: nat) {
    && from + |picks| == |quiz.questions|
    && forall j :: 0 <= j < |picks| ==>
         && picks[j] < |quiz.questions[from + j].options|
         && quiz.questions[from + j].options[picks[j]] != ""
         && OptionLetter(quiz.questions[from + j].options[picks[j]]) == quiz.questions[from + j].correctAnswer
  }

  lemma {:induction false} CorrectFrom(quiz: Quiz, picks: seq<nat>, i: nat, score: nat)
    requires i < |quiz.questions| && CorrectPicks(quiz, picks, i)
    ensures Run(quiz, Taking(Session(i, None, false, score, false)), AnswerEach(picks))
              == Taking(Session(|quiz.questions| - 1, None, false, score + |picks|, true))
    decreases |picks|
  {
    var s := Session(i, None, false, score, false);
    var option := quiz.questions[i].options[picks[0]];
    var s1 := Session(i, Some(option), true, score + 1, false);
    assert Step(quiz, Taking(s), Choose(picks[0])) == Taking(s1);
    var actions := AnswerEach(picks);
    assert actions[0] == Choose(picks[0]) && actions[1] == Next;
    assert actions[1..][1..] == AnswerEach(picks[1..]);
    if i == |quiz.questions| - 1 {
      assert Step(quiz, Taking(s1), Next) == Taking(Session(i, None, false, score + 1, true));
    } else {
      var s2 := Session(i + 1, None, false, score + 1, false);
      assert Step(quiz, Taking(s1), Next) == Taking(s2);
      assert CorrectPicks(quiz, picks[1..], i + 1) by {
        forall j | 0 <= j < |picks[1..]|
          ensures picks[1..][j] < |quiz.questions[i + 1 + j].options|
        {
          assert picks[1..][j] == picks[j + 1];
        }
      }
      CorrectFrom(quiz, picks[1..], i + 1, score + 1);
    }
  }

  /** Answering every question correctly finishes the quiz with full marks and
      the perfect band. */
  lemma AllCorrectIsPerfect(quiz: Quiz, picks: seq<nat>)
    requires Displayable(quiz) && CorrectPicks(quiz, picks, 0)
    ensures Run(quiz, Taking(Initial), AnswerEach(picks))
              == Taking(Session(|quiz.questions| - 1, None, false, |quiz.questions|, true))
    ensures ResultBand(|quiz.questions|, |quiz.questions|) == Perfect
    ensures BandMessage(ResultBand(|quiz.questions|, |quiz.questions|)) == "Perfect score! Excellent job!"
  {
    CorrectFrom(quiz, picks, 0, 0);
  }

  /** A higher score never earns a lower band. */
  lemma BandMonotone(low: nat, high: nat, total: nat)
    requires low <= high <= total
    ensures Rank(ResultBand(low, total)) <= Rank(ResultBand(high, total))
  {
  }
}
