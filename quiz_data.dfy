/** The static question catalog the quiz walks through, in traversal order. */
module QuizData {
  import opened QuizTypes

  const QuizQuestions: seq<QuizQuestion> := [
    QuizQuestion("location", "Where will your plant live?",
      Some("This helps us understand the environment"), Some("MapPin"), Single, [
        QuizAnswer("indoor", "Indoor", "indoor", Some("Home"), None),
        QuizAnswer("outdoor", "Outdoor", "outdoor", Some("Trees"), None),
        QuizAnswer("both", "Both", "both", Some("ArrowLeftRight"), None)
      ]),
    QuizQuestion("lighting", "How much natural light is available?",
      Some("Consider the brightest spot where you'll place it"), Some("Sun"), Single, [
        QuizAnswer("low", "Low Light", "low", Some("Moon"), None),
        QuizAnswer("medium", "Medium Light", "medium", Some("Cloud"), None),
        QuizAnswer("bright", "Bright Light", "bright", Some("Sun"), None),
        QuizAnswer("direct", "Direct Sunlight", "direct", Some("Zap"), None)
      ]),
    QuizQuestion("experience", "What's your plant experience?",
      Some("This helps us recommend the right difficulty level"), Some("GraduationCap"), Single, [
        QuizAnswer("beginner", "Complete Beginner", "beginner", Some("Seedling"), None),
        QuizAnswer("some", "Some Experience", "some", Some("Sprout"), None),
        QuizAnswer("experienced", "Very Experienced", "experienced", Some("TreePine"), None)
      ]),
    QuizQuestion("maintenance", "How much care can you provide?",
      Some("Be honest about your availability"), Some("Clock"), Single, [
        QuizAnswer("low", "Low Maintenance", "low", Some("Battery"), None),
        QuizAnswer("medium", "Medium Care", "medium", Some("BatteryMedium"), None),
        QuizAnswer("high", "High Maintenance", "high", Some("BatteryFull"), None)
      ]),
    QuizQuestion("style", "What's your aesthetic preference?",
      Some("Choose all that appeal to you"), Some("Palette"), Multiple, [
        QuizAnswer("minimalist", "Minimalist", "minimalist", Some("Square"), None),
        QuizAnswer("tropical", "Tropical", "tropical", Some("Palmtree"), None),
        QuizAnswer("desert", "Desert/Succulent", "desert", Some("Cactus"), None),
        QuizAnswer("cottage", "Cottage Core", "cottage", Some("Flower"), None),
        QuizAnswer("modern", "Modern", "modern", Some("Triangle"), None)
      ]),
    QuizQuestion("colors", "Which colors inspire you?",
      Some("This helps match your plant to your space"), Some("Paintbrush"), Multiple, [
        QuizAnswer("green", "Deep Greens", "green", None, Some("#059669")),
        QuizAnswer("patterned", "Patterned", "patterned", None,
          Some("linear-gradient(45deg, #10b981, #3b82f6, #8b5cf6, #f59e0b)")),
        QuizAnswer("purple", "Purple Tones", "purple", None, Some("#7c3aed")),
        QuizAnswer("silver", "Silver/Gray", "silver", None, Some("#6b7280")),
        QuizAnswer("red", "Red Accents", "red", None, Some("#dc2626"))
      ]),
    QuizQuestion("lifestyle", "What describes your lifestyle?",
      Some("Choose all that apply"), Some("User"), Multiple, [
        QuizAnswer("busy", "Always Busy", "busy", Some("Clock"), None),
        QuizAnswer("homebody", "Love Being Home", "homebody", Some("Home"), None),
        QuizAnswer("traveler", "Frequent Traveler", "traveler", Some("Plane"), None),
        QuizAnswer("social", "Love Entertaining", "social", Some("Users"), None),
        QuizAnswer("peaceful", "Seek Tranquility", "peaceful", Some("Heart"), None)
      ])
  ]

  /** The ids of a list of questions, in order. */
  function QuestionIds(qs: seq<QuizQuestion>): (ids: seq<string>)
    ensures |ids| == |qs|
    ensures forall i :: 0 <= i < |qs| ==> ids[i] == qs[i].id
  {
    if qs == [] then [] else [qs[0].id] + QuestionIds(qs[1..])
  }

  /** The ids of a question's answers, in presentation order. */
  function AnswerIds(answers: seq<QuizAnswer>): (ids: seq<string>)
    ensures |ids| == |answers|
    ensures forall i :: 0 <= i < |answers| ==> ids[i] == answers[i].id
  {
    seq(|answers|, i requires 0 <= i < |answers| => answers[i].id)
  }

  /** A question offers at least one answer, no answer id twice, and each
      answer's id is also the value it stands for. */
  predicate WellFormedAnswers(q: QuizQuestion) {
    && |q.answers| > 0
    && NoDuplicates(AnswerIds(q.answers))
    && forall a :: a in q.answers ==> a.id == a.value
  }

  /** The catalog holds seven questions, in this order. */
  lemma CatalogOrder()
    ensures |QuizQuestions| == 7
    ensures QuestionIds(QuizQuestions) ==
      ["location", "lighting", "experience", "maintenance", "style", "colors", "lifestyle"]
  {
  }

  /** No two questions share an id, so looking a question up by id is unambiguous. */
  lemma CatalogIdsDistinct()
    ensures NoDuplicates(QuestionIds(QuizQuestions))
  {
    CatalogOrder();
    SevenIdsDistinct();
  }

  lemma SevenIdsDistinct()
    ensures NoDuplicates(["location", "lighting", "experience", "maintenance", "style", "colors", "lifestyle"])
  {
  }

  /** Two different positions of the catalog hold different ids. */
  lemma IdsDiffer(i: nat, j: nat)
    requires i < |QuizQuestions| && j < |QuizQuestions| && i != j
    ensures QuizQuestions[i].id != QuizQuestions[j].id
  {
  }

  /** The first four questions take one answer, the last three several. */
  lemma CatalogKinds()
    ensures forall i :: 0 <= i < |QuizQuestions| ==>
      (QuizQuestions[i].kind == Single <==> i < 4) &&
      (QuizQuestions[i].kind == Multiple <==> 4 <= i)
  {
  }

  /** Every question's answer list is well formed. */
  lemma CatalogAnswersWellFormed()
    ensures forall i :: 0 <= i < |QuizQuestions| ==> WellFormedAnswers(QuizQuestions[i])
  {
    forall i | 0 <= i < |QuizQuestions| ensures WellFormedAnswers(QuizQuestions[i]) {
      if i == 0 {
        LocationAnswers();
      } else if i == 1 {
        LightingAnswers();
      } else if i == 2 {
        ExperienceAnswers();
      } else if i == 3 {
        MaintenanceAnswers();
      } else if i == 4 {
        StyleAnswers();
      } else if i == 5 {
        ColorsAnswers();
      } else {
        LifestyleAnswers();
      }
    }
  }

  // The answers each question offers, in presentation order.

  lemma LocationAnswers()
    ensures AnswerIds(QuizQuestions[0].answers) == ["indoor", "outdoor", "both"]
    ensures WellFormedAnswers(QuizQuestions[0])
  {
  }

  lemma LightingAnswers()
    ensures AnswerIds(QuizQuestions[1].answers) == ["low", "medium", "bright", "direct"]
    ensures WellFormedAnswers(QuizQuestions[1])
  {
  }

  lemma ExperienceAnswers()
    ensures AnswerIds(QuizQuestions[2].answers) == ["beginner", "some", "experienced"]
    ensures WellFormedAnswers(QuizQuestions[2])
  {
  }

  lemma MaintenanceAnswers()
    ensures AnswerIds(QuizQuestions[3].answers) == ["low", "medium", "high"]
    ensures WellFormedAnswers(QuizQuestions[3])
  {
  }

  lemma StyleAnswers()
    ensures AnswerIds(QuizQuestions[4].answers) == ["minimalist", "tropical", "desert", "cottage", "modern"]
    ensures WellFormedAnswers(QuizQuestions[4])
  {
  }

  lemma ColorsAnswers()
    ensures AnswerIds(QuizQuestions[5].answers) == ["green", "patterned", "purple", "silver", "red"]
    ensures WellFormedAnswers(QuizQuestions[5])
  {
  }

  lemma LifestyleAnswers()
    ensures AnswerIds(QuizQuestions[6].answers) == ["busy", "homebody", "traveler", "social", "peaceful"]
    ensures WellFormedAnswers(QuizQuestions[6])
  {
  }
}
