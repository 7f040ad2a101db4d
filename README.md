# Plant quiz state machine, in Dafny

This project models the quiz of the one-life-plant web app. The `useQuiz` hook holds a
state made of three parts: the current step (−1 on the welcome screen, then a question
index, then the number of questions or more once done), a map from question id to the
stored answer (one string or a list of strings), and a completion flag. The hook offers
start, select-answer, next, previous and restart, plus the `canProceed` test. The
transitions read the static catalog of seven questions.

Files and modules:

- `quiz_types.dfy` (`QuizTypes`): the records of `src/types/quiz.ts` as datatypes. A stored
  answer `string | string[]` becomes `Answer = Text(string) | List(seq<string>)`.
- `quiz_data.dfy` (`QuizData`): the catalog `QuizQuestions` as a constant, with lemmas
  about its shape.
- `answer_toggle.dfy` (`AnswerToggle`): the list update for a multiple-choice answer
  (`includes`, then `filter` or append), with its algebra.
- `use_quiz.dfy` (`UseQuiz`): the transitions as pure functions from the previous state,
  the invariant every reachable state keeps, and a class `Quiz`. The class's `state` field
  is what the hook's `useState` holds. Its ghost field `persisted` stands for the
  `quizAnswers` entry in local storage: written when a step completes the quiz, removed
  on restart.
- `quiz_laws.dfy` (`QuizLaws`): properties that relate several calls, and runs of
  arbitrary call sequences.
- `quiz_flow.dfy` (`QuizFlow`): the hook as `App.tsx` drives it. Each screen offers only
  some calls, and "Continue" is disabled unless `canProceed` holds. Under that discipline
  the results screen is reached only with every question answered.

Behaviour of the hook worth knowing:

- `startQuiz` does not check that the quiz is on the welcome screen. It sets the step to 0
  from any state and keeps the answers and the completion flag.
- `nextStep` past completion is not a no-op. It keeps counting up, recomputes the flag
  (still true), and writes the answers to storage again.
- `previousStep` keeps the completion flag. `nextStep` recomputes it from the new step.
  So stepping back after completion and then forward again can clear the flag
  (`QuizLaws.CompletionNotLatched`).
- The stored multiple-choice answer is a list, not a set. Toggling twice restores which
  ids are selected, but not always the list itself (`AnswerToggle.ToggleTwiceIdentity` says exactly when).

## Model

| member | source | states |
|---|---|---|
| `QuizData.CatalogOrder` | src/data/quizQuestions.ts:3-95 | the catalog holds exactly 7 questions, with ids location, lighting, experience, maintenance, style, colors, lifestyle in that order |
| `QuizData.CatalogIdsDistinct` | src/data/quizQuestions.ts:5-82 | no two catalog questions share an id |
| `QuizData.CatalogKinds` | src/data/quizQuestions.ts:9-86 | questions 0–3 are single-choice and questions 4–6 are multiple-choice |
| `QuizData.CatalogAnswersWellFormed` | src/data/quizQuestions.ts:10-93 | every question has a non-empty answer list, its answer ids are pairwise distinct, and each answer's id equals its value |
| `QuizData.LocationAnswers` | src/data/quizQuestions.ts:10-14 | the location answers are indoor, outdoor, both, in order |
| `QuizData.LightingAnswers` | src/data/quizQuestions.ts:22-27 | the lighting answers are exactly low, medium, bright, direct, in order |
| `QuizData.ExperienceAnswers` | src/data/quizQuestions.ts:35-39 | the experience answers are beginner, some, experienced |
| `QuizData.MaintenanceAnswers` | src/data/quizQuestions.ts:47-51 | the maintenance answers are exactly low, medium, high |
| `QuizData.StyleAnswers` | src/data/quizQuestions.ts:59-65 | the style answers are minimalist, tropical, desert, cottage, modern |
| `QuizData.ColorsAnswers` | src/data/quizQuestions.ts:73-79 | the colour answers are green, patterned, purple, silver, red |
| `QuizData.LifestyleAnswers` | src/data/quizQuestions.ts:87-93 | the lifestyle answers are busy, homebody, traveler, social, peaceful |
| `AnswerToggle.RemoveAll` | src/hooks/useQuiz.ts:28 | the filtered list no longer contains the id, and every other id is in it exactly when it was in the input |
| `AnswerToggle.RemoveAllMultiset` | src/hooks/useQuiz.ts:28 | filtering drops every occurrence of the id and keeps every other element with its multiplicity |
| `AnswerToggle.RemoveAllAppend` | src/hooks/useQuiz.ts:28 | filtering distributes over concatenation, so the kept elements stay in their order |
| `AnswerToggle.RemoveAllAbsent` | src/hooks/useQuiz.ts:28 | filtering out an absent id returns the list unchanged |
| `AnswerToggle.RemoveAllAt` | src/hooks/useQuiz.ts:27-28 | in a list without duplicates, filtering deletes exactly the one position that holds the id |
| `AnswerToggle.Toggle` | src/hooks/useQuiz.ts:26-31 | the toggled id is selected afterwards iff it was not before; every other id keeps its membership; a present id is filtered out (`RemoveAll`: every occurrence, the rest in order); an absent id is appended at the end |
| `AnswerToggle.ToggleNoDuplicates` | src/hooks/useQuiz.ts:27-31 | toggling keeps a duplicate-free list duplicate-free |
| `AnswerToggle.ToggleTwiceMembership` | src/hooks/useQuiz.ts:26-31 | toggling the same id twice restores the set of selected ids |
| `AnswerToggle.ToggleTwiceAbsent` | src/hooks/useQuiz.ts:29-30 | toggling an absent id twice restores the exact list |
| `AnswerToggle.ToggleTwicePresent` | src/hooks/useQuiz.ts:27-30 | toggling a present id twice removes all its occurrences and re-appends it once at the end |
| `AnswerToggle.ToggleTwiceIdentity` | src/hooks/useQuiz.ts:27-30 | two toggles of an id give back the exact list if and only if the id was absent, or was the last element and occurred nowhere else |
| `AnswerToggle.ToggleTwiceReorders` | src/hooks/useQuiz.ts:27-30 | concrete case: two toggles of "a" turn ["a","b"] into ["b","a"], not the original list |
| `UseQuiz.FindQuestion` | src/hooks/useQuiz.ts:17 | the lookup is empty iff no question has the id; otherwise it returns the first question with that id |
| `UseQuiz.FindInCatalog` | src/hooks/useQuiz.ts:17 | looking up a catalog question's id returns that very question |
| `UseQuiz.KindOf` | src/hooks/useQuiz.ts:17-23 | the type is known iff some catalog question has the id, and then it is the type of the first such question |
| `UseQuiz.KindOfCatalog` | src/hooks/useQuiz.ts:17-23 | each catalog question's id yields that question's own type |
| `UseQuiz.TotalSteps` | src/hooks/useQuiz.ts:98 | `totalSteps` is the catalog length, 7 |
| `UseQuiz.Initial` | src/hooks/useQuiz.ts:6-10 | the initial state is step −1, an empty answer map, not complete |
| `UseQuiz.CurrentQuestion` | src/hooks/useQuiz.ts:91 | there is a current question exactly when 0 ≤ step < 7, and it is the catalog question at index step |
| `UseQuiz.Start` | src/hooks/useQuiz.ts:12-14 | the step becomes 0, answers and completion are unchanged, and the first question is current |
| `UseQuiz.Selected` | src/hooks/useQuiz.ts:26 | a stored list is returned as it is; a missing entry reads as no selection |
| `UseQuiz.ApplyAnswer` | src/hooks/useQuiz.ts:20-35 | only the question's entry changes; single-choice stores exactly the answer id; multiple-choice stores the toggled list (the id filtered out if present, appended if absent), which flips the id's membership and keeps every other id's; step and completion are unchanged |
| `UseQuiz.Select` | src/hooks/useQuiz.ts:16-36 | an id the catalog does not know leaves the state unchanged; otherwise the updater for that question's type is applied |
| `UseQuiz.Next` | src/hooks/useQuiz.ts:38-54 | the step goes up by one, the quiz is complete iff the new step is ≥ the number of questions, and the answers are unchanged |
| `UseQuiz.Prev` | src/hooks/useQuiz.ts:56-61 | the step becomes max(−1, step − 1), so it never drops below −1; answers and completion are unchanged |
| `UseQuiz.Restart` | src/hooks/useQuiz.ts:63-72 | from any state, the result is exactly the initial state |
| `UseQuiz.CanProceed` | src/hooks/useQuiz.ts:74-87 | false when the step is outside 0..6; when true, the current question has an entry whose shape matches its type |
| `UseQuiz.InitialInv` | src/hooks/useQuiz.ts:6-10 | the initial state satisfies the reachable-state invariant |
| `UseQuiz.StartInv` | src/hooks/useQuiz.ts:12-14 | start preserves the invariant |
| `UseQuiz.SelectInv` | src/hooks/useQuiz.ts:16-36 | select-answer preserves the invariant: each entry belongs to a catalog question, a string for single-choice and a duplicate-free list for multiple-choice |
| `UseQuiz.ApplyAnswerInv` | src/hooks/useQuiz.ts:20-35 | the updater preserves the invariant for a known question |
| `UseQuiz.NextInv` | src/hooks/useQuiz.ts:38-54 | next preserves the invariant, including "a step at or past 7 means complete" |
| `UseQuiz.PrevInv` | src/hooks/useQuiz.ts:56-61 | previous preserves the invariant |
| `UseQuiz.Quiz.constructor` | src/hooks/useQuiz.ts:6-10 | the hook starts in the initial state; storage holds whatever it held before |
| `UseQuiz.Quiz.StartQuiz` | src/hooks/useQuiz.ts:12-14 | the state is replaced by `Start` of the old state; storage is untouched |
| `UseQuiz.Quiz.SelectAnswer` | src/hooks/useQuiz.ts:16-36 | the state is replaced by `Select` of the old state; storage is untouched |
| `UseQuiz.Quiz.NextStep` | src/hooks/useQuiz.ts:38-54 | the state is replaced by `Next` of the old state; when that completes the quiz, storage holds the previous answers |
| `UseQuiz.Quiz.PreviousStep` | src/hooks/useQuiz.ts:56-61 | the state is replaced by `Prev` of the old state; storage is untouched |
| `UseQuiz.Quiz.RestartQuiz` | src/hooks/useQuiz.ts:63-72 | storage is cleared and the state is the initial one; a complete quiz always has stored answers |
| `QuizLaws.BackToWelcome` | src/hooks/useQuiz.ts:56-72 | restart from any state gives the initial state; previous on the fresh welcome screen, or on the first question of a fresh quiz, gives the initial state back (elsewhere previous keeps the stored answers); neither fresh state can proceed |
| `QuizLaws.SelectUnknownQuestion` | src/hooks/useQuiz.ts:17-18 | answering an id the catalog lacks ("pets") leaves the state unchanged |
| `QuizLaws.NoPetsQuestion` | src/data/quizQuestions.ts:3-95 | no catalog question has the id "pets" |
| `QuizLaws.SelectSingleLastWins` | src/hooks/useQuiz.ts:23-24 | on a single-choice question, answering a then b equals answering b alone |
| `QuizLaws.SelectMultipleTwice` | src/hooks/useQuiz.ts:26-31 | on a multiple-choice question, two identical selections restore membership; the state comes back if the id was absent from an existing list; a missing entry becomes an empty list; a present id moves to the end |
| `QuizLaws.ToggleTwice` | src/hooks/useQuiz.ts:26-31 | the same four facts for the multiple-choice updater itself |
| `QuizLaws.CanProceedIff` | src/hooks/useQuiz.ts:74-87 | in every reachable state, canProceed holds iff the step is a question and that question's stored answer is non-empty |
| `QuizLaws.AnsweringEnablesProceed` | src/hooks/useQuiz.ts:23-31 | answering the current single-choice question with a non-empty id, or selecting a new id on a multiple-choice one, makes canProceed true |
| `QuizLaws.SelectMultipleTwiceKeepsProceed` | src/hooks/useQuiz.ts:74-87 | selecting the same id twice on the current multiple-choice question never changes canProceed |
| `QuizLaws.AdvanceSteps` | src/hooks/useQuiz.ts:38-54 | after k > 0 next calls the step moved by k, answers are unchanged, the quiz is complete iff step + k ≥ 7, and once complete it stays complete |
| `QuizLaws.WalkThrough` | src/hooks/useQuiz.ts:12-54 | from an incomplete welcome state with any answers, start and k ≤ 7 next calls: step k, complete iff k = 7, a current question iff k < 7 |
| `QuizLaws.PrevNextRoundTrip` | src/hooks/useQuiz.ts:38-61 | previous undoes next, and next undoes previous above the welcome screen, apart from the recomputed completion flag |
| `QuizLaws.CompletionNotLatched` | src/hooks/useQuiz.ts:41-59 | previous keeps the completion flag, but after completing, two steps back and one forward clear it |
| `QuizLaws.RunInv` | src/hooks/useQuiz.ts:12-72 | any sequence of hook calls keeps the reachable-state invariant |
| `QuizLaws.ReachableInv` | src/hooks/useQuiz.ts:6-72 | every state reachable from the initial state satisfies the invariant |
| `QuizFlow.ScreenOf` | src/App.tsx:22-35 | the welcome screen shows iff the step is −1; the results screen iff the step is not −1 and the quiz is complete; a blank screen iff neither and there is no current question; otherwise a question screen with the current question |
| `QuizFlow.Offered` | src/App.tsx:22-60 | a call is offered exactly on its screen: start on the welcome screen, restart on the results screen, select for every one of the on-screen question's own answer ids and no other (the pills of `QuizQuestion.tsx`), back whenever a question above the first is on screen (`showBack`), continue on a question screen exactly while canProceed holds |
| `QuizFlow.AnsweredAtLocal` | src/hooks/useQuiz.ts:79-86 | whether a question counts as answered depends only on that question's entry |
| `QuizFlow.AnswerKeepsEarlier` | src/App.tsx:50-53 | answering the question on screen leaves every earlier question's answered status unchanged |
| `QuizFlow.AnswerKeepsAnswered` | src/App.tsx:50-53 | answering the question on screen keeps all earlier questions answered |
| `QuizFlow.ContinueKeepsAnswered` | src/App.tsx:57-60 | Continue is enabled only by canProceed, so all questions up to the one just passed are answered |
| `QuizFlow.OfferedKeepsFlowInv` | src/App.tsx:22-60 | every call a screen offers keeps these facts: step within −1..7, complete iff the step is 7, every passed question answered |
| `QuizFlow.DriveKeepsFlowInv` | src/App.tsx:22-60 | any sequence of clicks keeps those facts |
| `QuizFlow.ResultsOnlyWhenAllAnswered` | src/App.tsx:22-60 | from a fresh quiz the screen is never blank, and the results screen appears only at step 7 with all seven questions answered |

## Left out

- Local storage is browser I/O. It appears only as the ghost field `Quiz.persisted`: set to the answers when a step completes the quiz, removed on restart. The JSON encoding is not modelled.
- React machinery is framework plumbing and is not modelled: `useState`, `useCallback` memoisation, re-render timing. `canProceed` is a function of the current state.
- `UseQuiz.Selected`: reads a string stored under a multiple-choice question as no selection. JavaScript agrees only for the empty string, which `|| []` replaces by an empty list. For a non-empty string, `includes` is a substring search. If the id is a substring, the call to `filter` throws, since strings have no `filter`. If it is not, the spread `[...currentAnswers, answerId]` splits the string into its characters and appends the id. The case is unreachable: `UseQuiz.Inv`, which `QuizLaws.ReachableInv` proves for every reachable state, keeps every multiple-choice entry a list.
- `UseQuiz.CurrentQuestion`: returns none for a step past the last question, where JavaScript yields `undefined`. The screen treats both alike.
- `selectAnswer` does not check that the answer id belongs to the question, and neither does the model. Only the screen-driven flow in `QuizFlow` restricts answers to the question's own ids.
- Question and answer titles, labels, subtitles, icons and colours are kept as data, with no properties. The answer field `label` is named `displayLabel` because `label` is a Dafny keyword.
- The components are presentational markup and are not modelled: welcome, results (its plant list is hard-coded), question, answer pill, header, logo. The Tailwind configuration is styling and is left out too. From `App.tsx`, only which screen shows and which calls it offers is modelled.
- The progress-bar percentage is floating-point display arithmetic and is not modelled.
- Plant filtering, scoring, shuffling and the swipe deck are not part of this model.
