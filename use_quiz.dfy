/** The quiz state machine of the `useQuiz` hook: pure transitions from the
    previous state to the next, the `canProceed` test, and a `Quiz` object
    that holds the state the way the hook does. */
module UseQuiz {
  import opened QuizTypes
  import opened QuizData
  import opened AnswerToggle

  /** Position `i` holds the first question of `qs` whose id is `id`. */
  predicate FirstWithId(qs: seq<QuizQuestion>, id: string, i: int) {
    0 <= i < |qs| && qs[i].id == id && forall j :: 0 <= j < i ==> qs[j].id != id
  }

  /** The first question of `qs` whose id is `id`, if any (`Array.prototype.find`). */
  function FindQuestion(qs: seq<QuizQuestion>, id: string): (r: Option<QuizQuestion>)
    ensures r.None? <==> forall q :: q in qs ==> q.id != id
    ensures r.Some? ==> r.value.id == id && exists i :: FirstWithId(qs, id, i) && qs[i] == r.value
  {
    if qs == [] then None
    else if qs[0].id == id then Some(qs[0])
    else
      var r := FindQuestion(qs[1..], id);
      assert r.Some? ==> exists i :: FirstWithId(qs, id, i) && qs[i] == r.value by {
        if r.Some? {
          var i :| FirstWithId(qs[1..], id, i) && qs[1..][i] == r.value;
          assert qs[i + 1] == r.value;
          forall j | 0 <= j < i + 1 ensures qs[j].id != id {
            if j > 0 { assert qs[j] == qs[1..][j - 1]; }
          }
          assert FirstWithId(qs, id, i + 1);
        }
      }
      r
  }

  /** Since catalog ids are distinct, looking up a catalog question's id finds that question. */
  lemma FindInCatalog(i: nat)
    requires i < |QuizQuestions|
    ensures FindQuestion(QuizQuestions, QuizQuestions[i].id) == Some(QuizQuestions[i])
  {
    CatalogIdsDistinct();
    var ids := QuestionIds(QuizQuestions);
    var r := FindQuestion(QuizQuestions, QuizQuestions[i].id);
    assert QuizQuestions[i] in QuizQuestions;
    var k :| FirstWithId(QuizQuestions, QuizQuestions[i].id, k) && QuizQuestions[k] == r.value;
    assert ids[k] == ids[i];
  }

  /** Each catalog question is found under its own id, with its own type. */
  lemma KindOfCatalog(i: nat)
    requires i < |QuizQuestions|
    ensures KindOf(QuizQuestions[i].id) == Some(QuizQuestions[i].kind)
  {
    FindInCatalog(i);
  }

  /** The number of questions, `totalSteps`. */
  function TotalSteps(): (n: nat)
    ensures n == |QuizQuestions| && n == 7
  {
    CatalogOrder();
    |QuizQuestions|
  }

  /** The state the hook starts in: the welcome screen, nothing answered. */
  function Initial(): (s: QuizState)
    ensures s.currentStep == -1 && s.answers == map[] && !s.isComplete
  {
    QuizState(-1, map[], false)
  }

  /** `currentQuestion`: the question at the current step, none on the
      welcome screen and none once the step is past the last question. */
  function CurrentQuestion(s: QuizState): (r: Option<QuizQuestion>)
    ensures r.Some? <==> 0 <= s.currentStep < |QuizQuestions|
    ensures r.Some? ==> r.value == QuizQuestions[s.currentStep] && r.value in QuizQuestions
  {
    if 0 <= s.currentStep < |QuizQuestions| then Some(QuizQuestions[s.currentStep]) else None
  }

  /** `startQuiz`: go to the first question, keeping answers and completion. */
  function Start(s: QuizState): (r: QuizState)
    ensures r.currentStep == 0 && r.answers == s.answers && r.isComplete == s.isComplete
    ensures CurrentQuestion(r) == Some(QuizQuestions[0])
  {
    s.(currentStep := 0)
  }

  /** The type of the catalog question with that id, if there is one. */
  function KindOf(questionId: string): (k: Option<QuestionType>)
    ensures k.None? <==> forall q :: q in QuizQuestions ==> q.id != questionId
    ensures k.Some? ==> exists i :: FirstWithId(QuizQuestions, questionId, i) && QuizQuestions[i].kind == k.value
  {
    match FindQuestion(QuizQuestions, questionId)
    case None => None
    case Some(q) => Some(q.kind)
  }

  /** The ids selected so far for a multiple-choice question; a missing
      entry reads as no selection. */
  function Selected(answers: map<string, Answer>, questionId: string): (ids: seq<string>)
    ensures questionId !in answers ==> ids == []
    ensures questionId in answers && answers[questionId].List? ==> ids == answers[questionId].ids
  {
    if questionId in answers && answers[questionId].List? then answers[questionId].ids else []
  }

  /** The updater `selectAnswer` hands to the state setter once the question
      is known: a single-choice answer replaces the stored one; a
      multiple-choice answer id is toggled in the stored list (removed if
      present, appended if absent). Nothing but that one entry changes. */
  function ApplyAnswer(prev: QuizState, kind: QuestionType, questionId: string, answerId: string): (r: QuizState)
    ensures r.currentStep == prev.currentStep && r.isComplete == prev.isComplete
    ensures questionId in r.answers && r.answers - {questionId} == prev.answers - {questionId}
    ensures kind == Single ==> r.answers[questionId] == Text(answerId)
    ensures kind == Multiple ==>
      var before, after := Selected(prev.answers, questionId), Selected(r.answers, questionId);
      && r.answers[questionId].List?
      && (answerId in after <==> answerId !in before)
      && (forall y :: y != answerId ==> (y in after <==> y in before))
      && r.answers[questionId] == List(Toggle(before, answerId))
  {
    var entry := match kind
      case Single => Text(answerId)
      case Multiple => List(Toggle(Selected(prev.answers, questionId), answerId));
    prev.(answers := prev.answers[questionId := entry])
  }

  /** `selectAnswer`: a question id the catalog does not know changes
      nothing; otherwise the answer is applied as that question's type says. */
  function Select(s: QuizState, questionId: string, answerId: string): (r: QuizState)
    ensures KindOf(questionId).None? ==> r == s
    ensures KindOf(questionId).Some? ==> r == ApplyAnswer(s, KindOf(questionId).value, questionId, answerId)
  {
    match KindOf(questionId)
    case None => s
    case Some(kind) => ApplyAnswer(s, kind, questionId, answerId)
  }

  /** `nextStep`: one step forward; the quiz counts as complete exactly when
      the new step is at or past the number of questions. */
  function Next(s: QuizState): (r: QuizState)
    ensures r.currentStep == s.currentStep + 1
    ensures r.isComplete <==> r.currentStep >= |QuizQuestions|
    ensures r.answers == s.answers
  {
    var step := s.currentStep + 1;
    s.(currentStep := step, isComplete := step >= |QuizQuestions|)
  }

  /** `previousStep`: one step back, never below the welcome screen; answers
      and the completion flag are kept. */
  function Prev(s: QuizState): (r: QuizState)
    ensures r.currentStep >= -1
    ensures s.currentStep >= 0 ==> r.currentStep == s.currentStep - 1
    ensures s.currentStep < 0 ==> r.currentStep == -1
    ensures r.answers == s.answers && r.isComplete == s.isComplete
  {
    s.(currentStep := if s.currentStep - 1 < -1 then -1 else s.currentStep - 1)
  }

  /** `restartQuiz`: back to the initial state, whatever the state was. */
  function Restart(s: QuizState): (r: QuizState)
    ensures r == Initial()
    ensures CurrentQuestion(r).None? && r.answers == map[]
  {
    QuizState(-1, map[], false)
  }

  /** `canProceed`: the current step is a question and its stored answer is a
      non-empty string (single choice) or a non-empty list (multiple choice). */
  function CanProceed(s: QuizState): (r: bool)
    ensures !(0 <= s.currentStep < |QuizQuestions|) ==> !r
    ensures r ==> QuizQuestions[s.currentStep].id in s.answers
    ensures r ==> (QuizQuestions[s.currentStep].kind == Single <==> s.answers[QuizQuestions[s.currentStep].id].Text?)
  {
    if s.currentStep < 0 || s.currentStep >= |QuizQuestions| then false
    else
      var q := QuizQuestions[s.currentStep];
      if q.kind == Single then
        q.id in s.answers && s.answers[q.id].Text? && |s.answers[q.id].text| > 0
      else
        q.id in s.answers && s.answers[q.id].List? && |s.answers[q.id].ids| > 0
  }

  /** An answer entry fits its key: the key is a catalog question, a
      single-choice question holds a string, a multiple-choice question a
      list without repeated ids. */
  predicate EntryFits(questionId: string, a: Answer) {
    match KindOf(questionId)
    case None => false
    case Some(Single) => a.Text?
    case Some(Multiple) => a.List? && NoDuplicates(a.ids)
  }

  predicate AllFit(answers: map<string, Answer>) {
    forall k :: k in answers ==> EntryFits(k, answers[k])
  }

  /** What holds of every state the hook can reach from its initial state. */
  predicate Inv(s: QuizState) {
    && s.currentStep >= -1
    && (s.currentStep >= |QuizQuestions| ==> s.isComplete)
    && AllFit(s.answers)
  }

  lemma InitialInv()
    ensures Inv(Initial())
  {
  }

  lemma StartInv(s: QuizState)
    requires Inv(s)
    ensures Inv(Start(s))
  {
  }

  lemma SelectInv(s: QuizState, questionId: string, answerId: string)
    requires Inv(s)
    ensures Inv(Select(s, questionId, answerId))
  {
    if KindOf(questionId).Some? {
      ApplyAnswerInv(s, KindOf(questionId).value, questionId, answerId);
    }
  }

  lemma ApplyAnswerInv(s: QuizState, kind: QuestionType, questionId: string, answerId: string)
    requires Inv(s) && KindOf(questionId) == Some(kind)
    ensures Inv(ApplyAnswer(s, kind, questionId, answerId))
  {
    var r := ApplyAnswer(s, kind, questionId, answerId);
    if kind == Multiple {
      var before := Selected(s.answers, questionId);
      assert NoDuplicates(before) by {
        if questionId in s.answers {
          assert EntryFits(questionId, s.answers[questionId]);
        }
      }
      ToggleNoDuplicates(before, answerId);
    }
    assert r.answers == s.answers[questionId := r.answers[questionId]];
    FitsUpdate(s.answers, questionId, r.answers[questionId]);
  }

  /** Storing a fitting entry keeps every entry of the map fitting. */
  lemma FitsUpdate(m: map<string, Answer>, questionId: string, a: Answer)
    requires AllFit(m) && EntryFits(questionId, a)
    ensures AllFit(m[questionId := a])
  {
  }

  lemma NextInv(s: QuizState)
    requires Inv(s)
    ensures Inv(Next(s))
  {
  }

  lemma PrevInv(s: QuizState)
    requires Inv(s)
    ensures Inv(Prev(s))
  {
  }

  /** The hook as an object: `state` is what `useState` holds and each
      callback replaces; `persisted` is the `quizAnswers` entry of the
      browser's local storage, written on completion and removed on restart. */
  class Quiz {
    var state: QuizState
    ghost var persisted: Option<map<string, Answer>>

    /** Completion is only ever reached through `nextStep`, which stores the answers. */
    ghost predicate Valid()
      reads this
    {
      Inv(state) && (state.isComplete ==> persisted.Some?)
    }

    /** The hook's first render; `stored` is whatever local storage already held. */
    constructor (ghost stored: Option<map<string, Answer>>)
      ensures Valid()
      ensures state == Initial() && persisted == stored
    {
      state := QuizState(-1, map[], false);
      persisted := stored;
    }

    method StartQuiz()
      requires Valid()
      modifies this
      ensures Valid()
      ensures state == Start(old(state)) && persisted == old(persisted)
    {
      StartInv(state);
      state := state.(currentStep := 0);
    }

    method SelectAnswer(questionId: string, answerId: string)
      requires Valid()
      modifies this
      ensures Valid()
      ensures state == Select(old(state), questionId, answerId)
      ensures persisted == old(persisted)
    {
      SelectInv(state, questionId, answerId);
      match KindOf(questionId)
      case None =>
      case Some(kind) =>
        var newAnswers := state.answers;
        if kind == Single {
          newAnswers := newAnswers[questionId := Text(answerId)];
        } else {
          var current := Selected(newAnswers, questionId);
          if answerId in current {
            newAnswers := newAnswers[questionId := List(RemoveAll(current, answerId))];
          } else {
            newAnswers := newAnswers[questionId := List(current + [answerId])];
          }
        }
        state := state.(answers := newAnswers);
    }

    method NextStep()
      requires Valid()
      modifies this
      ensures Valid()
      ensures state == Next(old(state))
      ensures persisted == if state.isComplete then Some(old(state).answers) else old(persisted)
    {
      NextInv(state);
      var nextStep := state.currentStep + 1;
      var isComplete := nextStep >= |QuizQuestions|;
      if isComplete {
        persisted := Some(state.answers);
      }
      state := state.(currentStep := nextStep, isComplete := isComplete);
    }

    method PreviousStep()
      requires Valid()
      modifies this
      ensures Valid()
      ensures state == Prev(old(state)) && persisted == old(persisted)
    {
      PrevInv(state);
      var step := if state.currentStep - 1 < -1 then -1 else state.currentStep - 1;
      state := state.(currentStep := step);
    }

    method RestartQuiz()
      requires Valid()
      modifies this
      ensures Valid()
      ensures state == Restart(old(state)) && persisted == None
    {
      persisted := None;
      state := QuizState(-1, map[], false);
    }
  }
}
