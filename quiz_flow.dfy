/** The hook as the screens drive it: each screen offers only some calls,
    and `nextStep` only while `canProceed` holds. Under that discipline the
    results screen is reached only with every question answered. */
module QuizFlow {
  import opened QuizTypes
  import opened QuizData
  import opened UseQuiz
  import opened QuizLaws

  /** The screen rendered for a state. */
  datatype Screen = Welcome | Results | Asking(question: QuizQuestion) | Blank

  function ScreenOf(s: QuizState): (r: Screen)
    ensures r.Asking? ==> CurrentQuestion(s) == Some(r.question) && !s.isComplete
    ensures r == Welcome <==> s.currentStep == -1
    ensures r == Results <==> s.currentStep != -1 && s.isComplete
    ensures r == Blank <==> s.currentStep != -1 && !s.isComplete && CurrentQuestion(s).None?
  {
    if s.currentStep == -1 then Welcome
    else if s.isComplete then Results
    else match CurrentQuestion(s)
      case None => Blank
      case Some(q) => Asking(q)
  }

  /** Whether the screen shown for `s` offers the call `e`: start on the
      welcome screen, restart on the results screen, and on a question
      screen one of that question's own answers, back from the second
      question on, and continue only while `canProceed`. */
  predicate Offered(s: QuizState, e: Event): (b: bool)
    ensures e.StartQuiz? ==> (b <==> s.currentStep == -1)
    ensures e.RestartQuiz? ==> (b <==> s.currentStep != -1 && s.isComplete)
    ensures e.SelectAnswer? ==> (b <==>
      && 0 <= s.currentStep < |QuizQuestions| && !s.isComplete
      && e.questionId == QuizQuestions[s.currentStep].id
      && e.answerId in AnswerIds(QuizQuestions[s.currentStep].answers))
    ensures e.PreviousStep? ==> (b <==> 0 < s.currentStep < |QuizQuestions| && !s.isComplete)
    ensures e.NextStep? ==> (b <==> s.currentStep != -1 && !s.isComplete && CanProceed(s))
  {
    match e
    case StartQuiz => ScreenOf(s) == Welcome
    case RestartQuiz => ScreenOf(s) == Results
    case SelectAnswer(questionId, answerId) =>
      && ScreenOf(s).Asking?
      && ScreenOf(s).question.id == questionId
      && answerId in AnswerIds(ScreenOf(s).question.answers)
    case PreviousStep => ScreenOf(s).Asking? && s.currentStep > 0
    case NextStep => ScreenOf(s).Asking? && CanProceed(s)
  }

  /** The calls the screens let through; the others are never made. */
  function Drive(s: QuizState, events: seq<Event>): QuizState
    decreases |events|
  {
    if events == [] then s
    else Drive(if Offered(s, events[0]) then Apply(s, events[0]) else s, events[1..])
  }

  /** Question `i` has a non-empty answer of its type: `canProceed` would
      hold with question `i` on screen. */
  predicate AnsweredAt(answers: map<string, Answer>, i: nat) {
    CanProceed(QuizState(i, answers, false))
  }

  /** Every question before `step` is answered. */
  predicate AnsweredBefore(answers: map<string, Answer>, step: int) {
    forall i: nat :: i < step ==> AnsweredAt(answers, i)
  }

  /** What holds along every screen-driven run: the step stays within
      welcome..done, completion means exactly the step after the last
      question, and every question already passed is answered. */
  predicate FlowInv(s: QuizState) {
    && Inv(s)
    && -1 <= s.currentStep <= |QuizQuestions|
    && (s.isComplete <==> s.currentStep == |QuizQuestions|)
    && AnsweredBefore(s.answers, s.currentStep)
  }

  lemma OfferedKeepsFlowInv(s: QuizState, e: Event)
    requires FlowInv(s) && Offered(s, e)
    ensures FlowInv(Apply(s, e))
  {
    match e {
      case StartQuiz => StartInv(s);
      case RestartQuiz => InitialInv();
      case SelectAnswer(questionId, answerId) =>
        SelectInv(s, questionId, answerId);
        AnswerKeepsAnswered(s.answers, s.currentStep, answerId);
      case PreviousStep => PrevInv(s);
      case NextStep =>
        NextInv(s);
        ContinueKeepsAnswered(s);
    }
  }

  /** Answering question `step` leaves the answers to the earlier ones alone. */
  lemma AnswerKeepsAnswered(answers: map<string, Answer>, step: nat, answerId: string)
    requires step < |QuizQuestions| && AnsweredBefore(answers, step)
    ensures AnsweredBefore(Select(QuizState(step, answers, false), QuizQuestions[step].id, answerId).answers, step)
  {
    var after := Select(QuizState(step, answers, false), QuizQuestions[step].id, answerId).answers;
    forall i: nat | i < step ensures AnsweredAt(after, i) {
      AnswerKeepsEarlier(answers, step, i, answerId);
    }
  }

  lemma AnswerKeepsEarlier(answers: map<string, Answer>, step: nat, i: nat, answerId: string)
    requires i < step < |QuizQuestions|
    ensures var after := Select(QuizState(step, answers, false), QuizQuestions[step].id, answerId).answers;
      AnsweredAt(after, i) == AnsweredAt(answers, i)
  {
    var questionId, id := QuizQuestions[step].id, QuizQuestions[i].id;
    var after := Select(QuizState(step, answers, false), questionId, answerId).answers;
    assert after - {questionId} == answers - {questionId};
    IdsDiffer(i, step);
    assert id in after <==> id in after - {questionId};
    assert id in answers <==> id in answers - {questionId};
    assert id in answers ==> answers[id] == (answers - {questionId})[id];
    AnsweredAtLocal(answers, after, i);
  }

  /** `canProceed` at question `i` reads only that question's entry. */
  lemma AnsweredAtLocal(m1: map<string, Answer>, m2: map<string, Answer>, i: nat)
    requires i < |QuizQuestions|
    requires var id := QuizQuestions[i].id;
      (id in m1 <==> id in m2) && (id in m1 ==> m1[id] == m2[id])
    ensures AnsweredAt(m1, i) == AnsweredAt(m2, i)
  {
  }

  /** Continuing is offered only when the current question is answered. */
  lemma ContinueKeepsAnswered(s: QuizState)
    requires 0 <= s.currentStep && AnsweredBefore(s.answers, s.currentStep) && CanProceed(s)
    ensures AnsweredBefore(s.answers, s.currentStep + 1)
  {
  }

  lemma {:induction false} DriveKeepsFlowInv(s: QuizState, events: seq<Event>)
    requires FlowInv(s)
    ensures FlowInv(Drive(s, events))
    decreases |events|
  {
    if events != [] {
      var next := if Offered(s, events[0]) then Apply(s, events[0]) else s;
      if Offered(s, events[0]) {
        OfferedKeepsFlowInv(s, events[0]);
      }
      DriveKeepsFlowInv(next, events[1..]);
    }
  }

  /** From a fresh quiz, whatever the user clicks: the screen is never blank,
      and when the results screen shows, every question has a non-empty
      answer of its type, which is what the completing step stored. */
  lemma ResultsOnlyWhenAllAnswered(events: seq<Event>)
    ensures var s := Drive(Initial(), events);
      && ScreenOf(s) != Blank
      && (ScreenOf(s) == Results ==>
            s.currentStep == |QuizQuestions| && AnsweredBefore(s.answers, |QuizQuestions|))
  {
    InitialInv();
    DriveKeepsFlowInv(Initial(), events);
  }
}
