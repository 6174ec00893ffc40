/** The quiz session: grading an answer against the current question with
    the two-strike rule, the streak milestone, the mastery ledger and the
    fill-in-the-blank sentence mode, and moving on to the next question. */
module Session {
  import opened Wrappers
  import opened Normalization
  import opened Catalog
  import opened Ledger

  /** The message shown under the answer box. */
  datatype Feedback =
    | NoFeedback
    | Perfect               // the sentence contains the expected form
    | TryAgain              // the sentence lacks it
    | Correct               // the conjugation is right
    | MasteredFillIn        // ... and it has just mastered the question
    | Incorrect(answer: string)  // second wrong answer; the correct form is revealed
    | StrikeOne             // first wrong answer

  /** Every piece of game state that grading reads or writes. */
  datatype GameState = GameState(
    question: Question,
    userAnswer: string,
    feedback: Feedback,
    showAnswer: bool,
    score: nat,
    streak: nat,
    progressMap: map<string, Record>,
    isSentenceMode: bool,
    strikes: nat)

  /** The state after grading, and whether the streak reached a milestone. */
  datatype Checked = Checked(state: GameState, milestone: bool)

  /** Every how many answers in a row the streak is celebrated. */
  const MilestoneEvery: nat := 5

  /** Wrong answers that resolve a question as failed. */
  const StrikeLimit: nat := 2

  /** Conjugation grading: equal once both sides are normalised. */
  predicate ConjugationMatches(answer: string, expected: string) {
    Normalize(answer) == Normalize(expected)
  }

  /** Sentence grading: the normalised answer contains the normalised form. */
  predicate SentenceMatches(answer: string, expected: string) {
    Includes(Normalize(answer), Normalize(expected))
  }

  /** What grading keeps: at most one strike and none once the answer is
      shown or a sentence is asked for, a valid ledger, a streak no larger
      than the score, and sentence mode only for a question the ledger marks
      mastered. */
  predicate GameInvariant(s: GameState) {
    s.strikes < StrikeLimit
    && LedgerValid(s.progressMap)
    && s.streak <= s.score
    && (s.showAnswer ==> s.strikes == 0)
    && (s.isSentenceMode ==> s.strikes == 0 && Current(s.progressMap, KeyOf(s.question)).mastered)
  }

  /** The states the game can reach: a catalogue question and the invariant. */
  predicate ValidState(s: GameState) {
    ValidQuestion(s.question) && GameInvariant(s)
  }

  /** The state when the game starts: a drawn question, nothing typed, and
      the ledger read back from storage when there was one. */
  function Initial(q: Question, stored: Option<map<string, Record>>): (s: GameState)
    requires stored.Some? ==> LedgerValid(stored.value)
    ensures GameInvariant(s)
    ensures s.progressMap == if stored.Some? then stored.value else map[]
  {
    GameState(q, [], NoFeedback, false, 0, 0, if stored.Some? then stored.value else map[], false, 0)
  }

  /** Whether the typed answer passes: containment of the expected form in
      sentence mode, equality with it otherwise. */
  predicate Passes(s: GameState, expected: string) {
    if s.isSentenceMode then SentenceMatches(s.userAnswer, expected)
    else ConjugationMatches(s.userAnswer, expected)
  }

  /** Grading once the verdict `pass` on the typed answer is known;
      `expected` is the form the current question asks for. Only a pass
      scores, only a passed conjugation can reach a milestone, and the
      question and the typed answer stay. */
  function Grade(s: GameState, expected: string, pass: bool): (c: Checked)
    ensures c.state.score == s.score + (if pass then 1 else 0)
    ensures c.milestone ==> pass && !s.isSentenceMode
    ensures c.state.question == s.question && c.state.userAnswer == s.userAnswer
  {
    if s.isSentenceMode then GradeSentence(s, pass)
    else if pass then GradeCorrect(s)
    else GradeWrong(s, expected)
  }

  /** Sentence mode: a pass scores and shows the answer, a failure asks to
      try again. */
  function GradeSentence(s: GameState, pass: bool): Checked {
    if pass then Checked(s.(feedback := Perfect, score := s.score + 1, showAnswer := true), false)
    else Checked(s.(feedback := TryAgain), false)
  }

  /** A correct conjugation: strikes cleared, score and streak up, a correct
      attempt recorded, and either the answer shown or, when this answer
      masters a question not mastered before, sentence mode entered. */
  function GradeCorrect(s: GameState): Checked {
    var key := KeyOf(s.question);
    var current := Current(s.progressMap, key);
    var milestone := (s.streak + 1) % MilestoneEvery == 0;
    var graded := s.(strikes := 0, score := s.score + 1, streak := s.streak + 1,
                     progressMap := Update(s.progressMap, key, true));
    if UnlocksMastery(current) then
      Checked(graded.(feedback := MasteredFillIn, isSentenceMode := true, showAnswer := false), milestone)
    else
      Checked(graded.(feedback := Correct, showAnswer := true), milestone)
  }

  /** A wrong conjugation: the first is a strike; the second reveals the
      expected form, resets strikes and streak and records a failed attempt. */
  function GradeWrong(s: GameState, expected: string): Checked {
    if s.strikes + 1 >= StrikeLimit then
      Checked(s.(feedback := Incorrect(expected), strikes := 0, streak := 0,
                 progressMap := Update(s.progressMap, KeyOf(s.question), false), showAnswer := true), false)
    else
      Checked(s.(strikes := s.strikes + 1, feedback := StrikeOne), false)
  }

  /** Submitting the answer: grading against the form the question expects.
      The score rises by one exactly when the answer passes, and the
      question and the typed answer stay. */
  function Check(s: GameState): (c: Checked)
    requires ValidQuestion(s.question)
    ensures c.state.score == s.score + (if Passes(s, ExpectedForm(s.question)) then 1 else 0)
    ensures c.milestone ==> Passes(s, ExpectedForm(s.question)) && !s.isSentenceMode
    ensures c.state.question == s.question && c.state.userAnswer == s.userAnswer
  {
    var expected := ExpectedForm(s.question);
    Grade(s, expected, Passes(s, expected))
  }

  /** Moving on to question `q`: the answer box, the feedback, the strikes
      and both modes are reset; score, streak and ledger are kept. */
  function Next(s: GameState, q: Question): GameState {
    s.(question := q, userAnswer := [], feedback := NoFeedback, showAnswer := false,
       isSentenceMode := false, strikes := 0)
  }

  /** Grading keeps the invariant of the game; in particular the strike
      count stays 0 or 1. */
  lemma GradePreservesInvariant(s: GameState, expected: string, pass: bool)
    requires GameInvariant(s) && !s.showAnswer
    ensures GameInvariant(Grade(s, expected, pass).state)
    ensures Grade(s, expected, pass).state.strikes <= 1
    ensures Grade(s, expected, pass).state.question == s.question
  {
    var key := KeyOf(s.question);
    var current := Current(s.progressMap, key);
    UpdateChangesOnlyKey(s.progressMap, key, pass);
  }

  /** A first wrong answer records one strike and changes nothing else but
      the message; no milestone. */
  lemma FirstWrongAnswer(s: GameState, expected: string)
    requires !s.isSentenceMode && s.strikes == 0
    ensures Grade(s, expected, false) == Checked(s.(strikes := 1, feedback := StrikeOne), false)
  {
  }

  /** A second wrong answer resolves the question as failed: strikes and
      streak drop to 0, the expected form is revealed, and the ledger counts
      one more attempt for this key only and clears its mastery. */
  lemma SecondWrongAnswer(s: GameState, expected: string)
    requires !s.isSentenceMode && s.strikes == 1
    ensures var r := Grade(s, expected, false).state;
      var key := KeyOf(s.question);
      var before := Current(s.progressMap, key);
      && !Grade(s, expected, false).milestone
      && r == s.(feedback := Incorrect(expected), strikes := 0, streak := 0,
                 showAnswer := true, progressMap := r.progressMap)
      && Current(r.progressMap, key) == Record(before.correctCount, before.totalAttempts + 1, false)
      && (forall k :: k != key ==> Current(r.progressMap, k) == Current(s.progressMap, k))
  {
    UpdateChangesOnlyKey(s.progressMap, KeyOf(s.question), false);
  }

  /** A correct conjugation clears the strikes, adds one to score and
      streak, and records a correct attempt for this key only. The milestone
      fires exactly on every fifth answer in a row. Sentence mode starts,
      with the answer hidden, exactly when this answer masters a question
      that was not mastered; otherwise the answer is shown. */
  lemma CorrectAnswer(s: GameState, expected: string)
    requires !s.isSentenceMode
    ensures var c := Grade(s, expected, true);
      var key := KeyOf(s.question);
      var before := Current(s.progressMap, key);
      && c.state.strikes == 0
      && c.state.score == s.score + 1
      && c.state.streak == s.streak + 1
      && (c.milestone <==> (s.streak + 1) % MilestoneEvery == 0)
      && Current(c.state.progressMap, key) ==
           Record(before.correctCount + 1, before.totalAttempts + 1, before.correctCount + 1 >= MasteryThreshold)
      && (forall k :: k != key ==> Current(c.state.progressMap, k) == Current(s.progressMap, k))
      && (c.state.isSentenceMode <==> before.correctCount + 1 >= MasteryThreshold && !before.mastered)
      && c.state.feedback == (if c.state.isSentenceMode then MasteredFillIn else Correct)
      && (c.state.showAnswer <==> !c.state.isSentenceMode)
      && c.state.question == s.question && c.state.userAnswer == s.userAnswer
  {
    UpdateChangesOnlyKey(s.progressMap, KeyOf(s.question), true);
  }

  /** In sentence mode a pass adds one to the score and shows the answer;
      a failure only changes the message. Neither touches strikes, streak or
      ledger, nor fires a milestone. */
  lemma SentenceGrading(s: GameState, expected: string, pass: bool)
    requires s.isSentenceMode
    ensures var c := Grade(s, expected, pass);
      && !c.milestone
      && c.state == (if pass then s.(feedback := Perfect, score := s.score + 1, showAnswer := true)
                     else s.(feedback := TryAgain))
      && c.state.strikes == s.strikes && c.state.streak == s.streak
      && c.state.progressMap == s.progressMap
  {
  }

  /** An answer made only of whitespace never matches a form that survives
      normalisation, in either mode. */
  lemma BlankNeverMatches(answer: string, expected: string)
    requires forall i :: 0 <= i < |answer| ==> IsJsSpace(answer[i])
    requires Normalize(expected) != []
    ensures !ConjugationMatches(answer, expected)
    ensures !SentenceMatches(answer, expected)
  {
    BlankNormalizesToEmpty(answer);
  }

  /** A blank submission never passes, so it never scores, whatever the
      question and the mode. */
  lemma BlankAnswerNeverScores(s: GameState)
    requires ValidQuestion(s.question)
    requires forall i :: 0 <= i < |s.userAnswer| ==> IsJsSpace(s.userAnswer[i])
    ensures !Passes(s, ExpectedForm(s.question))
    ensures Check(s).state.score == s.score
    ensures Check(s).state.streak <= s.streak
  {
    var expected := ExpectedForm(s.question);
    BlankNeverMatches(s.userAnswer, expected);
    FailureNeverScores(s, expected);
  }

  /** A failed answer never adds to the score and never grows the streak. */
  lemma FailureNeverScores(s: GameState, expected: string)
    ensures Grade(s, expected, false).state.score == s.score
    ensures Grade(s, expected, false).state.streak <= s.streak
    ensures !Grade(s, expected, false).milestone
  {
  }

  /** Moving on keeps score, streak and ledger, leaves no strike and no
      mode, and keeps the game valid. */
  lemma NextKeepsProgress(s: GameState, q: Question)
    requires GameInvariant(s)
    ensures var r := Next(s, q);
      && GameInvariant(r)
      && r.score == s.score && r.streak == s.streak && r.progressMap == s.progressMap
      && r.strikes == 0 && !r.showAnswer && !r.isSentenceMode
      && r.userAnswer == [] && r.feedback == NoFeedback && r.question == q
  {
  }

  /** The game as the component holds it: each state variable is a field. */
  class QuizSession {
    var question: Question
    var userAnswer: string
    var feedback: Feedback
    var showAnswer: bool
    var score: nat
    var streak: nat
    var progressMap: map<string, Record>
    var isSentenceMode: bool
    var strikes: nat

    function State(): GameState
      reads this
    {
      GameState(question, userAnswer, feedback, showAnswer, score, streak, progressMap, isSentenceMode, strikes)
    }

    ghost predicate Valid()
      reads this
    {
      ValidState(State())
    }

    /** Mounting the game: a drawn question and the stored ledger, if any. */
    constructor (vi: nat, ti: nat, pi: nat, stored: Option<map<string, Record>>)
      requires vi < |Verbs| && ti < |Verbs[vi].conjugations| && pi < |Pronouns|
      requires stored.Some? ==> LedgerValid(stored.value)
      ensures Valid()
      ensures State() == Initial(GenerateQuestion(vi, ti, pi), stored)
    {
      question := GenerateQuestion(vi, ti, pi);
      userAnswer := [];
      feedback := NoFeedback;
      showAnswer := false;
      score := 0;
      streak := 0;
      progressMap := if stored.Some? then stored.value else map[];
      isSentenceMode := false;
      strikes := 0;
    }

    /** Typing into the answer box, which is disabled once the answer is shown. */
    method EditAnswer(text: string)
      requires Valid() && !showAnswer
      modifies this
      ensures Valid()
      ensures State() == old(State()).(userAnswer := text)
    {
      userAnswer := text;
    }

    /** The Submit button, offered only while the answer is not shown: the
        typed answer is compared with the expected form in the way the
        current mode asks for, then the verdict is applied. */
    method CheckAnswer() returns (milestone: bool)
      requires Valid() && !showAnswer
      modifies this
      ensures Checked(State(), milestone) == Check(old(State()))
      ensures Valid()
    {
      var expected := ExpectedForm(question);
      var pass := Passes(State(), expected);
      GradePreservesInvariant(State(), expected, pass);
      milestone := ApplyVerdict(expected, pass);
    }

    /** The state updates of Submit once the verdict `pass` on the typed
        answer is known. A step of CheckAnswer, which holds the Submit guard
        and proves that the session stays valid; this step and the three
        below it only state the new state. */
    method ApplyVerdict(expected: string, pass: bool) returns (milestone: bool)
      modifies this
      ensures Checked(State(), milestone) == Grade(old(State()), expected, pass)
    {
      if isSentenceMode {
        milestone := CheckSentence(pass);
      } else if pass {
        milestone := AcceptConjugation();
      } else {
        milestone := RejectConjugation(expected);
      }
    }

    /** The sentence-mode check; a step of CheckAnswer. */
    method CheckSentence(pass: bool) returns (milestone: bool)
      modifies this
      ensures Checked(State(), milestone) == GradeSentence(old(State()), pass)
    {
      if pass {
        feedback := Perfect;
        score := score + 1;
        showAnswer := true;
      } else {
        feedback := TryAgain;
      }
      milestone := false;
    }

    /** A correct conjugation; a step of CheckAnswer. The component's state setters take effect
        together when the handler returns, so each path assigns the fields
        it sets at once. */
    method AcceptConjugation() returns (milestone: bool)
      modifies this
      ensures Checked(State(), milestone) == GradeCorrect(old(State()))
    {
      var key := KeyOf(question);
      var current := Current(progressMap, key);
      milestone := (streak + 1) % MilestoneEvery == 0;
      strikes, score, streak, progressMap := 0, score + 1, streak + 1, Update(progressMap, key, true);
      if UnlocksMastery(current) {
        feedback, isSentenceMode, showAnswer := MasteredFillIn, true, false;
      } else {
        feedback, showAnswer := Correct, true;
      }
    }

    /** A wrong conjugation; a step of CheckAnswer. */
    method RejectConjugation(expected: string) returns (milestone: bool)
      modifies this
      ensures Checked(State(), milestone) == GradeWrong(old(State()), expected)
    {
      var nextStrike := strikes + 1;
      if nextStrike >= StrikeLimit {
        feedback := Incorrect(expected);
        strikes := 0;
        streak := 0;
        progressMap := Update(progressMap, KeyOf(question), false);
        showAnswer := true;
      } else {
        strikes := nextStrike;
        feedback := StrikeOne;
      }
      milestone := false;
    }

    /** The Next button, offered only once the answer is shown; the new
        question is drawn with the picks `vi`, `ti` and `pi`. */
    method NextQuestion(vi: nat, ti: nat, pi: nat)
      requires Valid() && showAnswer
      requires vi < |Verbs| && ti < |Verbs[vi].conjugations| && pi < |Pronouns|
      modifies this
      ensures Valid()
      ensures State() == Next(old(State()), GenerateQuestion(vi, ti, pi))
    {
      NextKeepsProgress(State(), GenerateQuestion(vi, ti, pi));
      question := GenerateQuestion(vi, ti, pi);
      userAnswer := [];
      feedback := NoFeedback;
      showAnswer := false;
      isSentenceMode := false;
      strikes := 0;
    }
  }
}
