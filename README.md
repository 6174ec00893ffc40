# Spanish verb game: a verified model of its answer engine

The Spanish verb game is a single React component. It asks the player to
conjugate one of three regular verbs (hablar, comer, vivir) in one of four
tenses for one of six pronouns. It grades the typed answer and keeps:

- a score and a streak of answers right in a row;
- a strike counter: a question is failed on the second wrong answer;
- a per-question progress ledger. After seven correct answers to a question,
  the game asks for that form again inside a fill-in-the-blank sentence.

This Dafny project models the engine behind the screen and proves what it
promises:

- `Normalization` (normalize.dfy): the answer normaliser `normalizeInput`.
  It has five steps: NFD decomposition, removal of combining marks, removal of
  every character that is not an ASCII letter, digit or whitespace,
  lower-casing, and trimming. The module also models the substring test
  `includes` used for sentences.
- `Catalog` (catalog.dfy):
  - the verb table and the pronoun list, with their exact forms;
  - the progress key (`generateKey`) and how the review panel splits it;
  - `indexOf` on the pronouns and property access on the tense table;
  - the drawing of a question;
  - the expected-form lookup.
- `Ledger` (ledger.dfy): the progress record `{correctCount, totalAttempts,
  mastered}`, how one graded attempt changes it, and how a map of records
  changes.
- `Session` (session.dfy): the component state and the `checkAnswer` and
  `nextQuestion` handlers.
  - Transitions: a value `GameState` and the transition functions `Check`
    and `Next`, with the lemmas that state the game's rules.
  - Live state: the class `QuizSession` holds the state as fields. Its
    methods update them and are proved equal to the transition functions.
- `Wrappers` (wrappers.dfy): an `Option` type.

Random draws are parameters: a question is drawn by three indices in range.

The milestone (confetti on every fifth answer in a row) is the boolean that
`CheckAnswer` returns.

The code is followed, and the mastery flag is not a one-time unlock. A failed
round stores `mastered: false` for the question. A later correct answer on a
question whose correct count is already at least seven therefore masters it
again and re-enters sentence mode (`Ledger.MasteryReenters`).

A second point concerns sentence mode. A failed sentence only asks to try
again. It neither adds a strike nor resolves the round.

## Model

| member | source | states |
|---|---|---|
| Normalization.Normalize | components/SpanishVerbGame.tsx:6-13 | the result holds only lower-case ASCII letters, digits and whitespace, and has no whitespace at either end |
| Normalization.IsJsSpace | components/SpanishVerbGame.tsx:10-12 | no contract of its own: the exact ECMAScript WhiteSpace and LineTerminator set, which both `\s` and `trim` use; its role is stated by Normalization.KeepWordChars, Normalization.LeadingSpaces, Normalization.TrailingSpaces and Normalization.Trim |
| Normalization.DecomposeChar | components/SpanishVerbGame.tsx:8 | every character of U+00C0..U+00FF except the eleven without a canonical decomposition (Æ Ð × Ø Þ ß æ ð ÷ ø þ) decomposes into an ASCII letter and one combining mark, and no character outside that range does; the eleven and every other character are kept alone |
| Normalization.Nfd | components/SpanishVerbGame.tsx:8 | decomposition never shortens a string and leaves unchanged a string with no character in U+00C0..U+00FF |
| Normalization.StripMarks | components/SpanishVerbGame.tsx:9 | no combining mark U+0300..U+036F remains; a string without marks is unchanged |
| Normalization.KeepWordChars | components/SpanishVerbGame.tsx:10 | only ASCII letters, digits and whitespace remain; a string of those alone is unchanged |
| Normalization.LowerChar | components/SpanishVerbGame.tsx:11 | an ASCII capital becomes its own lower-case letter (the same distance from 'a' as it is from 'A'); every other character is unchanged |
| Normalization.ToLower | components/SpanishVerbGame.tsx:11 | lower-casing keeps the length and maps each character on its own |
| Normalization.LeadingSpaces | components/SpanishVerbGame.tsx:12 | counts the longest whitespace prefix: every counted character is whitespace and the next one is not |
| Normalization.TrailingSpaces | components/SpanishVerbGame.tsx:12 | counts the longest whitespace suffix: every counted character is whitespace and the one before them is not |
| Normalization.Trim | components/SpanishVerbGame.tsx:12 | the result is the input with a whitespace prefix and a whitespace suffix cut off and its middle kept; it has no whitespace at either end; it is empty exactly when the input is all whitespace; a string without edge whitespace is unchanged |
| Normalization.TrimIsEdgeSlice | components/SpanishVerbGame.tsx:12 | trimming cuts off a whitespace prefix and a whitespace suffix and keeps everything between them |
| Normalization.TrimKeepsNormalChars | components/SpanishVerbGame.tsx:12 | trimming a string of normal characters leaves only normal characters |
| Normalization.EarlySteps | components/SpanishVerbGame.tsx:8-11 | after the first four steps only lower-case letters, digits and whitespace remain |
| Normalization.NormalizeFixesNormalForm | components/SpanishVerbGame.tsx:6-13 | a string already in normal form is returned unchanged |
| Normalization.NormalizeIdempotent | components/SpanishVerbGame.tsx:6-13 | normalising twice gives the same result as normalising once |
| Normalization.BlankNormalizesToEmpty | components/SpanishVerbGame.tsx:6-13 | empty or all-whitespace input normalises to the empty string |
| Normalization.EarlyStepsAppend | components/SpanishVerbGame.tsx:8-11 | the first four steps work character by character: they distribute over concatenation |
| Normalization.Fold | components/SpanishVerbGame.tsx:8-11 | a character that decomposes folds to a lower-case ASCII letter; a character that does not decompose folds as lower-casing maps it |
| Normalization.AcuteAAndEFold | components/SpanishVerbGame.tsx:8-11 | á, Á fold to 'a' and é, É fold to 'e' |
| Normalization.AcuteIAndOFold | components/SpanishVerbGame.tsx:8-11 | í, Í fold to 'i' and ó, Ó fold to 'o' |
| Normalization.AcuteUFolds | components/SpanishVerbGame.tsx:8-11 | ú and Ú fold to 'u' |
| Normalization.DiaeresisUFolds | components/SpanishVerbGame.tsx:8-11 | ü and Ü fold to 'u' |
| Normalization.TildeNFolds | components/SpanishVerbGame.tsx:8-11 | ñ and Ñ fold to 'n' |
| Normalization.EarlyStepsOfChar | components/SpanishVerbGame.tsx:8-11 | one character becomes its folded letter if that is an ASCII letter, a digit or whitespace, and vanishes otherwise |
| Normalization.NormalizeIgnoresCaseAndAccents | components/SpanishVerbGame.tsx:6-13 | two strings whose characters agree once folded normalise to the same string |
| Normalization.AccentAndCaseInsensitiveExample | components/SpanishVerbGame.tsx:6-13 | "HABLÉ" and "hablé" both normalise to "hable" |
| Normalization.LeadingAlnumSurvives | components/SpanishVerbGame.tsx:6-13 | a string that starts with an ASCII letter or digit normalises to a non-empty string starting with that character, lower-cased |
| Normalization.Includes | components/SpanishVerbGame.tsx:102 | the empty string is included in every string, and nothing longer than a string is included in it |
| Normalization.IncludesIffOccurs | components/SpanishVerbGame.tsx:102 | `includes` holds exactly when the second string occurs at some position of the first |
| Catalog.Lookup | components/SpanishVerbGame.tsx:113 | property access on the tense table: None exactly when no entry has that tense; otherwise the forms of an entry with that tense |
| Catalog.LookupFindsEntry | components/SpanishVerbGame.tsx:113 | looking up the tense of an entry that no earlier entry shares returns that entry's forms |
| Catalog.PronounIndex | components/SpanishVerbGame.tsx:92-94 | no contract of its own: `indexOf` on the pronoun list; Catalog.LookupInBounds states that a catalogue pronoun's index lies in 0..5 and points back at it, and Catalog.IndexOf states what the index is |
| Catalog.IndexOf | components/SpanishVerbGame.tsx:92-94 | -1 exactly when the item is absent; otherwise the first position holding it |
| Catalog.Split | components/SpanishVerbGame.tsx:249 | `split` returns at least one piece, and no piece holds the separator |
| Catalog.JoinSplit | components/SpanishVerbGame.tsx:249 | joining the pieces of a split with the separator gives back the string |
| Catalog.SplitAtSeparator | components/SpanishVerbGame.tsx:249 | splitting cuts at the first separator |
| Catalog.GenerateKey | components/SpanishVerbGame.tsx:51-53 | no contract of its own: the verb, tense and pronoun joined by '-'; Catalog.KeyRoundTrip states that splitting gives the three back |
| Catalog.KeyOf | components/SpanishVerbGame.tsx:117 | no contract of its own: the key of the question's verb name, tense and pronoun; Catalog.ReviewShowsQuestion states that the review panel splits it back into them |
| Catalog.KeyRoundTrip | components/SpanishVerbGame.tsx:51-53 | splitting the key of a verb, tense and pronoun that hold no '-' gives back exactly those three |
| Catalog.ReviewParts | components/SpanishVerbGame.tsx:249 | the review panel takes between one and three pieces of a key |
| Catalog.ReviewShowsQuestion | components/SpanishVerbGame.tsx:249 | the review panel shows every catalogue question's key as its verb, tense and pronoun |
| Catalog.TenseKeys | components/SpanishVerbGame.tsx:57 | no contract of its own: `Object.keys` of a verb's table, the tense names in declaration order; Catalog.GenerateQuestion and Catalog.EveryValidQuestionIsDrawn state how the draw uses them |
| Catalog.GenerateQuestion | components/SpanishVerbGame.tsx:55-60 | a draw with in-range picks gives a catalogue question with the picked verb, the picked tense and the picked pronoun |
| Catalog.EveryValidQuestionIsDrawn | components/SpanishVerbGame.tsx:55-60 | every catalogue question is produced by some choice of picks |
| Catalog.CatalogIsWellFormed | components/SpanishVerbGame.tsx:15-34 | no verb or tense name holds '-', every tense has six forms, and each form is non-empty and starts with an ASCII letter or digit |
| Catalog.PronounsAreWellFormed | components/SpanishVerbGame.tsx:36-39 | there are six pronouns, and none holds '-' |
| Catalog.TensesAreDistinct | components/SpanishVerbGame.tsx:15-34 | no verb lists a tense twice |
| Catalog.PronounsAreDistinct | components/SpanishVerbGame.tsx:36-39 | no pronoun is listed twice |
| Catalog.LookupInBounds | components/SpanishVerbGame.tsx:92-115 | for any catalogue question the tense lookup succeeds with six forms, and the pronoun index lies in 0..5 and points back at the pronoun |
| Catalog.ExpectedForm | components/SpanishVerbGame.tsx:113-115 | the expected form is non-empty, starts with an ASCII letter or digit and does not normalise to the empty string |
| Catalog.DrawnQuestionExpects | components/SpanishVerbGame.tsx:113-115 | a drawn question expects the form at the picked tense and the picked pronoun's position |
| Ledger.Current | components/SpanishVerbGame.tsx:118 | no contract of its own: the stored record of a key, or {0,0,false} when there is none; Ledger.UpdateChangesOnlyKey states how grading changes it |
| Ledger.Graded | components/SpanishVerbGame.tsx:134-172 | one graded attempt adds one attempt and, when correct, one correct answer; the record is mastered exactly when the attempt was correct and the count is at least 7; record validity is kept |
| Ledger.Update | components/SpanishVerbGame.tsx:136-172 | no contract of its own: the ledger with the current key's record replaced by its graded record; Ledger.UpdateChangesOnlyKey states what changes |
| Ledger.UpdateChangesOnlyKey | components/SpanishVerbGame.tsx:118-172 | updating the ledger changes the current key's record (a missing key counts as {0,0,false}) as `Graded` says, leaves every other key alone, and keeps the ledger valid |
| Ledger.CountCorrect | components/SpanishVerbGame.tsx:134 | a history never has more correct outcomes than outcomes |
| Ledger.ReplaySummary | components/SpanishVerbGame.tsx:118-172 | the record built from a history counts its correct outcomes and all its attempts; it is mastered exactly when the last outcome was correct and at least 7 were correct |
| Ledger.RunUnlocksOnSeventh | components/SpanishVerbGame.tsx:134-145 | from an unseen question, a run of correct answers unlocks mastery on the seventh answer and on no other |
| Ledger.MasteryReenters | components/SpanishVerbGame.tsx:135-170 | a mastered record is not unlocked again by a correct answer, but a failure clears mastery and the next correct answer unlocks it again |
| Session.GameInvariant | components/SpanishVerbGame.tsx:96-188 | no contract of its own: at most one strike, a valid ledger, streak at most score, no strike once the answer is shown or a sentence asked for, sentence mode only for a mastered question; Session.Initial establishes it, Session.GradePreservesInvariant and Session.NextKeepsProgress keep it |
| Session.ConjugationMatches | components/SpanishVerbGame.tsx:116 | no contract of its own: equality after normalising both sides; Session.BlankNeverMatches and Normalization.NormalizeIgnoresCaseAndAccents state what it accepts |
| Session.SentenceMatches | components/SpanishVerbGame.tsx:102 | no contract of its own: containment after normalising both sides; Normalization.IncludesIffOccurs and Session.BlankNeverMatches state what it accepts |
| Session.Passes | components/SpanishVerbGame.tsx:102-116 | no contract of its own: containment in sentence mode, equality otherwise; Session.BlankAnswerNeverScores states that a blank answer never passes |
| Session.Initial | components/SpanishVerbGame.tsx:63-87 | the starting state holds the game invariant and the stored ledger, or an empty one |
| Session.Check | components/SpanishVerbGame.tsx:96-179 | submitting adds one to the score exactly when the answer passes; only a passed conjugation can reach a milestone; the question and the typed answer stay |
| Session.Grade | components/SpanishVerbGame.tsx:96-179 | with verdict `pass`, the score rises by one exactly when `pass` holds; only a passed conjugation can reach a milestone; the question and the typed answer stay |
| Session.GradeSentence | components/SpanishVerbGame.tsx:98-110 | no contract of its own: Session.SentenceGrading states the whole next state for a pass and for a failure |
| Session.GradeCorrect | components/SpanishVerbGame.tsx:120-157 | no contract of its own: Session.CorrectAnswer states its effects |
| Session.GradeWrong | components/SpanishVerbGame.tsx:158-178 | no contract of its own: Session.FirstWrongAnswer and Session.SecondWrongAnswer state the whole next state for each strike |
| Session.GradePreservesInvariant | components/SpanishVerbGame.tsx:96-179 | grading an answer while it is not shown keeps the invariant: at most one strike, a valid ledger, streak at most score, no strike once the answer is shown or a sentence asked for, sentence mode only for a mastered question |
| Session.FirstWrongAnswer | components/SpanishVerbGame.tsx:159-177 | a first wrong conjugation sets one strike and the strike message and changes nothing else; no milestone |
| Session.SecondWrongAnswer | components/SpanishVerbGame.tsx:159-173 | a second wrong conjugation reveals the expected form, resets strikes and streak, adds one failed attempt that clears mastery for this key only, and changes nothing else |
| Session.CorrectAnswer | components/SpanishVerbGame.tsx:118-157 | a correct conjugation clears the strikes, adds one to score and streak and one correct attempt for this key only; the milestone fires iff (streak+1) % 5 == 0; sentence mode starts, with the answer hidden and the mastered message, iff the new count is at least 7 and the question was not mastered; otherwise the answer is shown with the correct message |
| Session.SentenceGrading | components/SpanishVerbGame.tsx:98-110 | in sentence mode a pass adds one to the score and shows the answer, and a failure only changes the message; neither touches strikes, streak or ledger, nor fires a milestone |
| Session.BlankNeverMatches | components/SpanishVerbGame.tsx:102-116 | a blank answer equals no normalised expected form and contains none |
| Session.BlankAnswerNeverScores | components/SpanishVerbGame.tsx:96-179 | submitting a blank answer never passes, never adds to the score and never grows the streak |
| Session.FailureNeverScores | components/SpanishVerbGame.tsx:106-178 | a failed answer never adds to the score, never grows the streak and never fires a milestone |
| Session.Next | components/SpanishVerbGame.tsx:181-188 | no contract of its own: Session.NextKeepsProgress states what moving on resets and keeps |
| Session.NextKeepsProgress | components/SpanishVerbGame.tsx:181-188 | moving on sets the new question, clears answer, feedback, strikes and both modes, keeps score, streak and ledger, and keeps the invariant |
| Session.QuizSession.constructor | components/SpanishVerbGame.tsx:63-87 | the session starts in the initial state for the drawn question and stored ledger, and is valid |
| Session.QuizSession.EditAnswer | components/SpanishVerbGame.tsx:224-227 | typing replaces the answer and nothing else, and keeps the session valid |
| Session.QuizSession.CheckAnswer | components/SpanishVerbGame.tsx:96-179 | Submit, offered while the answer is hidden, moves the session to the state `Check` gives, returns its milestone, and keeps the session valid |
| Session.QuizSession.ApplyVerdict | components/SpanishVerbGame.tsx:96-179 | applying a verdict moves the session to the state `Grade` gives |
| Session.QuizSession.CheckSentence | components/SpanishVerbGame.tsx:98-110 | the sentence check moves the session to the state `GradeSentence` gives |
| Session.QuizSession.AcceptConjugation | components/SpanishVerbGame.tsx:120-157 | a correct conjugation moves the session to the state `GradeCorrect` gives |
| Session.QuizSession.RejectConjugation | components/SpanishVerbGame.tsx:158-178 | a wrong conjugation moves the session to the state `GradeWrong` gives |
| Session.QuizSession.NextQuestion | components/SpanishVerbGame.tsx:181-188 | Next, offered once the answer is shown, moves the session to the state `Next` gives for the drawn question, and keeps it valid |

## Left out

- Rendering: the layout, the dark-mode toggle, the score line and the review panel's markup and badges. Only the key split of the review panel is modelled.
- Persistence: reading and writing the ledger in browser storage, and JSON parsing. The constructor takes the loaded ledger as an optional parameter and requires it to be valid. Stored data is not checked by the component.
- The confetti animation, the milestone message and its three-second timer. Only whether the milestone fired is returned.
- The sentence template and the list of contexts it draws from. They do not affect grading.
- Feedback texts: each message is a constructor of `Feedback`, and the revealed answer is kept as a string.
- `Math.random`: each draw is an index parameter in range.
- Unicode: NFD is modelled by a decomposition table for the precomposed letters of Latin-1 (U+00C0..U+00FF). Other characters are treated as not decomposing. Decomposable letters outside Latin-1, such as 'Ā' or the Kelvin sign, are therefore deleted by the third step, where the component keeps their ASCII base letter.
- Surrogate pairs: Dafny's `char` is a Unicode scalar value, so strings holding lone surrogates are not modelled.
- Lower-casing is modelled only on ASCII letters, digits and whitespace. These are the only characters left when the fourth step runs.
- React's batched state updates are modelled as one step. Most reads of the handler use the state before the call, as the handler's closure does. The updater functions for score, streak and ledger (lines 104, 122-123, 136 and 165) read the pending state instead. The result is the same, because the handler sets each of these fields at most once.
- Session.QuizSession.CheckAnswer: requires that the answer is not shown, as the Submit button does. Grading while the answer is shown is not reachable from the interface.
