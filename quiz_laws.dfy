/** Properties of the quiz state machine that relate several transitions. */
module QuizLaws {
  import opened QuizTypes
  import opened QuizData
  import opened AnswerToggle
  import opened UseQuiz

  /** The size of a stored answer: the string's length or the list's length. */
  function AnswerSize(a: Answer): nat {
    match a
    case Text(t) => |t|
    case List(ids) => |ids|
  }

  // ---- restart and the initial state ----

  /** Restarting from anywhere lands on the welcome screen of a fresh quiz,
      and so does stepping back on the fresh welcome screen or on the first
      question of a fresh quiz (elsewhere `previousStep` keeps the answers). */
  lemma BackToWelcome(s: QuizState)
    ensures Restart(s) == Initial() && Prev(Initial()) == Initial()
    ensures Prev(Start(Initial())) == Initial()
    ensures !CanProceed(Initial()) && !CanProceed(Start(Initial()))
  {
  }

  // ---- selectAnswer ----

  /** The catalog has no `pets` question, so answering it changes nothing. */
  lemma SelectUnknownQuestion(s: QuizState, answerId: string)
    ensures Select(s, "pets", answerId) == s
  {
    NoPetsQuestion();
  }

  lemma NoPetsQuestion()
    ensures forall q :: q in QuizQuestions ==> q.id != "pets"
  {
  }

  /** On a single-choice question the last answer wins: answering `a` and
      then `b` is the same as answering `b` alone. */
  lemma SelectSingleLastWins(s: QuizState, i: nat, a: string, b: string)
    requires i < |QuizQuestions| && QuizQuestions[i].kind == Single
    ensures var id := QuizQuestions[i].id;
      Select(Select(s, id, a), id, b) == Select(s, id, b)
  {
    var id := QuizQuestions[i].id;
    KindOfCatalog(i);
    var r1, r2, r := Select(s, id, a), Select(Select(s, id, a), id, b), Select(s, id, b);
    assert r2.answers == r.answers by {
      MapsAgreeOffKey(r2.answers, r.answers, id);
    }
  }

  /** Toggling the same answer twice on a multiple-choice question restores
      which ids are selected. The stored list is restored when the id was
      absent and the entry existed; a missing entry becomes an empty list;
      an id that was present is moved to the end. */
  lemma SelectMultipleTwice(s: QuizState, i: nat, answerId: string)
    requires i < |QuizQuestions| && QuizQuestions[i].kind == Multiple
    ensures var id := QuizQuestions[i].id;
      var r := Select(Select(s, id, answerId), id, answerId);
      var before := Selected(s.answers, id);
      && (forall y :: y in Selected(r.answers, id) <==> y in before)
      && r.currentStep == s.currentStep && r.isComplete == s.isComplete
      && (id in s.answers && s.answers[id].List? && answerId !in before ==> r == s)
      && (id !in s.answers ==> r.answers == s.answers[id := List([])])
      && (answerId in before ==> r.answers == s.answers[id := List(RemoveAll(before, answerId) + [answerId])])
  {
    KindOfCatalog(i);
    ToggleTwice(s, QuizQuestions[i].id, answerId);
  }

  /** The same facts for the multiple-choice updater itself. */
  lemma ToggleTwice(s: QuizState, id: string, answerId: string)
    ensures var r := ApplyAnswer(ApplyAnswer(s, Multiple, id, answerId), Multiple, id, answerId);
      var before := Selected(s.answers, id);
      && (forall y :: y in Selected(r.answers, id) <==> y in before)
      && r.currentStep == s.currentStep && r.isComplete == s.isComplete
      && (id in s.answers && s.answers[id].List? && answerId !in before ==> r == s)
      && (id !in s.answers ==> r.answers == s.answers[id := List([])])
      && (answerId in before ==> r.answers == s.answers[id := List(RemoveAll(before, answerId) + [answerId])])
  {
    var r := ApplyAnswer(ApplyAnswer(s, Multiple, id, answerId), Multiple, id, answerId);
    var before := Selected(s.answers, id);
    var twice := Toggle(Toggle(before, answerId), answerId);
    assert r.answers == s.answers[id := List(twice)] by {
      MapsAgreeOffKey(r.answers, s.answers[id := List(twice)], id);
    }
    ToggleTwiceMembership(before, answerId);
    if answerId !in before {
      ToggleTwiceAbsent(before, answerId);
      if id in s.answers && s.answers[id].List? {
        assert s.answers[id := List(twice)] == s.answers;
      }
    } else {
      ToggleTwicePresent(before, answerId);
    }
  }

  /** Two maps that agree on every key but `k`, and on `k`, are equal. */
  lemma MapsAgreeOffKey(m1: map<string, Answer>, m2: map<string, Answer>, k: string)
    requires m1 - {k} == m2 - {k}
    requires k in m1 <==> k in m2
    requires k in m1 ==> m1[k] == m2[k]
    ensures m1 == m2
  {
    forall x | x in m1 ensures x in m2 && m1[x] == m2[x] {
      if x != k { assert x in m1 - {k}; }
    }
    forall x | x in m2 ensures x in m1 {
      if x != k { assert x in m2 - {k}; }
    }
  }

  // ---- canProceed ----

  /** In every reachable state `canProceed` says exactly that the current
      question has a non-empty answer, whatever its type. */
  lemma CanProceedIff(s: QuizState)
    requires Inv(s)
    ensures CanProceed(s) <==>
      && 0 <= s.currentStep < |QuizQuestions|
      && QuizQuestions[s.currentStep].id in s.answers
      && AnswerSize(s.answers[QuizQuestions[s.currentStep].id]) > 0
  {
    if 0 <= s.currentStep < |QuizQuestions| {
      var q := QuizQuestions[s.currentStep];
      KindOfCatalog(s.currentStep);
      if q.id in s.answers {
        assert EntryFits(q.id, s.answers[q.id]);
      }
    }
  }

  /** Answering the current single-choice question with a non-empty id
      unblocks `canProceed`; so does selecting a new id on a
      multiple-choice question. */
  lemma AnsweringEnablesProceed(s: QuizState, answerId: string)
    requires 0 <= s.currentStep < |QuizQuestions|
    ensures var q := QuizQuestions[s.currentStep];
      (q.kind == Single && answerId != "" ==> CanProceed(Select(s, q.id, answerId))) &&
      (q.kind == Multiple && answerId !in Selected(s.answers, q.id) ==> CanProceed(Select(s, q.id, answerId)))
  {
    KindOfCatalog(s.currentStep);
  }

  /** Toggling twice never changes whether the quiz may proceed. */
  lemma SelectMultipleTwiceKeepsProceed(s: QuizState, answerId: string)
    requires Inv(s) && 0 <= s.currentStep < |QuizQuestions|
    requires QuizQuestions[s.currentStep].kind == Multiple
    ensures var id := QuizQuestions[s.currentStep].id;
      CanProceed(Select(Select(s, id, answerId), id, answerId)) == CanProceed(s)
  {
    var id := QuizQuestions[s.currentStep].id;
    var r := Select(Select(s, id, answerId), id, answerId);
    SelectMultipleTwice(s, s.currentStep, answerId);
    SelectInv(s, id, answerId);
    SelectInv(Select(s, id, answerId), id, answerId);
    CanProceedIff(s);
    CanProceedIff(r);
    KindOfCatalog(s.currentStep);
    var before, after := Selected(s.answers, id), Selected(r.answers, id);
    assert id in r.answers && r.answers[id].List?;
    assert id in s.answers ==> s.answers[id].List? by {
      if id in s.answers { assert EntryFits(id, s.answers[id]); }
    }
    assert |after| > 0 <==> |before| > 0 by {
      if |after| > 0 { assert after[0] in before; }
      if |before| > 0 { assert before[0] in after; }
    }
  }

  // ---- nextStep and previousStep ----

  /** `k` successive `nextStep` calls. */
  function Advance(s: QuizState, k: nat): QuizState {
    if k == 0 then s else Next(Advance(s, k - 1))
  }

  /** After `k > 0` steps forward the step has moved by `k`, the answers are
      untouched, and the quiz is complete exactly when the step has reached
      the number of questions; once complete it stays complete. */
  lemma {:induction false} AdvanceSteps(s: QuizState, k: nat)
    ensures Advance(s, k).currentStep == s.currentStep + k
    ensures Advance(s, k).answers == s.answers
    ensures k > 0 ==> (Advance(s, k).isComplete <==> s.currentStep + k >= |QuizQuestions|)
    ensures k > 0 && Advance(s, k).isComplete ==> Advance(s, k + 1).isComplete
  {
    if k > 0 {
      AdvanceSteps(s, k - 1);
    }
  }

  /** Walking forward from the first question of an incomplete quiz, it is
      incomplete on every question and complete on the step after the last. */
  lemma WalkThrough(answers: map<string, Answer>, k: nat)
    requires k <= |QuizQuestions|
    ensures var s := Advance(Start(QuizState(-1, answers, false)), k);
      && s.currentStep == k
      && (s.isComplete <==> k == |QuizQuestions|)
      && (CurrentQuestion(s).Some? <==> k < |QuizQuestions|)
  {
    AdvanceSteps(Start(QuizState(-1, answers, false)), k);
  }

  /** One step back undoes one step forward, and vice versa above the
      welcome screen, up to the recomputed completion flag. */
  lemma PrevNextRoundTrip(s: QuizState)
    requires s.currentStep >= -1
    ensures Prev(Next(s)) == s.(isComplete := s.currentStep + 1 >= |QuizQuestions|)
    ensures s.currentStep >= 0 ==> Next(Prev(s)) == s.(isComplete := s.currentStep >= |QuizQuestions|)
  {
  }

  /** `previousStep` keeps the completion flag, but `nextStep` recomputes it:
      after completing, two steps back and one forward clear it again. */
  lemma CompletionNotLatched()
    ensures var done := Advance(Start(Initial()), |QuizQuestions|);
      done.isComplete && !Next(Prev(Prev(done))).isComplete && Prev(done).isComplete
  {
    AdvanceSteps(Start(Initial()), |QuizQuestions|);
  }

  // ---- arbitrary sequences of hook calls ----

  /** A call into the hook, as the screens make them. */
  datatype Event =
    | StartQuiz
    | SelectAnswer(questionId: string, answerId: string)
    | NextStep
    | PreviousStep
    | RestartQuiz

  function Apply(s: QuizState, e: Event): QuizState {
    match e
    case StartQuiz => Start(s)
    case SelectAnswer(q, a) => Select(s, q, a)
    case NextStep => Next(s)
    case PreviousStep => Prev(s)
    case RestartQuiz => Restart(s)
  }

  function Run(s: QuizState, events: seq<Event>): QuizState
    decreases |events|
  {
    if events == [] then s else Run(Apply(s, events[0]), events[1..])
  }

  /** Every state reachable by any sequence of calls keeps the invariant:
      the step is at least -1, a step past the questions means complete,
      and every stored answer has its question's shape. */
  lemma {:induction false} RunInv(s: QuizState, events: seq<Event>)
    requires Inv(s)
    ensures Inv(Run(s, events))
    decreases |events|
  {
    if events != [] {
      var e := events[0];
      match e {
        case StartQuiz => StartInv(s);
        case SelectAnswer(q, a) => SelectInv(s, q, a);
        case NextStep => NextInv(s);
        case PreviousStep => PrevInv(s);
        case RestartQuiz => InitialInv();
      }
      RunInv(Apply(s, e), events[1..]);
    }
  }

  lemma ReachableInv(events: seq<Event>)
    ensures Inv(Run(Initial(), events))
  {
    InitialInv();
    RunInv(Initial(), events);
  }
}
