/** The data model of the plant quiz: static questions and answers, the value
    stored per question, and the state the quiz hook holds. */
module QuizTypes {

  datatype Option<+T> = None | Some(value: T)

  /** Whether a question takes one answer or a set of toggled answers. */
  datatype QuestionType = Single | Multiple

  /** One selectable answer of a question (immutable catalog data). */
  datatype QuizAnswer = QuizAnswer(
    id: string,
    displayLabel: string,  // `label` in the source; a Dafny keyword
    value: string,
    icon: Option<string>,
    color: Option<string>)

  /** One question of the catalog; `answers` is in presentation order. */
  datatype QuizQuestion = QuizQuestion(
    id: string,
    title: string,
    subtitle: Option<string>,
    icon: Option<string>,
    kind: QuestionType,
    answers: seq<QuizAnswer>)

  /** What is stored for a question: one string, or a list of strings. */
  datatype Answer = Text(text: string) | List(ids: seq<string>)

  /** The hook's state. `currentStep` is -1 on the welcome screen, a question
      index while answering, and the question count (or more) once done. */
  datatype QuizState = QuizState(
    currentStep: int,
    answers: map<string, Answer>,
    isComplete: bool)

  /** No id occurs twice: what the catalog's id lists and every stored
      multiple-choice list have in common. */
  predicate NoDuplicates(s: seq<string>) {
    forall i, j :: 0 <= i < j < |s| ==> s[i] != s[j]
  }
}
