/** The progress ledger: one record per question key counting correct
    answers and graded attempts, and flagging the question as mastered. */
module Ledger {
  /** A question's record. An attempt is graded when the question is
      resolved: by a correct answer or by the second wrong one. */
  datatype Record = Record(correctCount: nat, totalAttempts: nat, mastered: bool)

  /** Correct answers needed to master a question. */
  const MasteryThreshold: nat := 7

  /** The record of a question never graded before. */
  const Unseen := Record(0, 0, false)

  /** The stored record of `key`, or Unseen when there is none. */
  function Current(pm: map<string, Record>, key: string): Record {
    if key in pm then pm[key] else Unseen
  }

  /** What the ledger can hold: no more correct answers than attempts, and
      mastery only with enough correct answers. */
  predicate RecordValid(r: Record) {
    r.correctCount <= r.totalAttempts && (r.mastered ==> r.correctCount >= MasteryThreshold)
  }

  predicate LedgerValid(pm: map<string, Record>) {
    forall k :: k in pm ==> RecordValid(pm[k])
  }

  /** The record after a graded attempt: one more attempt, one more correct
      answer when it was correct; mastered exactly when the attempt was
      correct and the count has reached the threshold. */
  function Graded(cur: Record, correct: bool): (r: Record)
    ensures r.totalAttempts == cur.totalAttempts + 1
    ensures r.correctCount == if correct then cur.correctCount + 1 else cur.correctCount
    ensures r.mastered <==> correct && r.correctCount >= MasteryThreshold
    ensures RecordValid(cur) ==> RecordValid(r)
  {
    if correct then
      var newCount := cur.correctCount + 1;
      Record(newCount, cur.totalAttempts + 1, newCount >= MasteryThreshold)
    else
      Record(cur.correctCount, cur.totalAttempts + 1, false)
  }

  /** The ledger after grading the question `key`. */
  function Update(pm: map<string, Record>, key: string, correct: bool): map<string, Record> {
    pm[key := Graded(Current(pm, key), correct)]
  }

  /** Grading changes the record of `key` as Graded says and no other
      record, and keeps the ledger valid. */
  lemma UpdateChangesOnlyKey(pm: map<string, Record>, key: string, correct: bool)
    ensures Current(Update(pm, key, correct), key) == Graded(Current(pm, key), correct)
    ensures forall k :: k != key ==> Current(Update(pm, key, correct), k) == Current(pm, k)
    ensures Update(pm, key, correct).Keys == pm.Keys + {key}
    ensures LedgerValid(pm) ==> LedgerValid(Update(pm, key, correct))
  {
    var r := Update(pm, key, correct);
    if LedgerValid(pm) {
      forall k | k in r ensures RecordValid(r[k]) {
        if k != key {
          assert r[k] == pm[k];
        }
      }
    }
  }

  /** A correct answer that masters a question not mastered before: the
      moment the game switches to sentence mode. */
  predicate UnlocksMastery(cur: Record) {
    Graded(cur, true).mastered && !cur.mastered
  }

  /** The number of correct outcomes in a history. */
  function CountCorrect(outcomes: seq<bool>): (n: nat)
    ensures n <= |outcomes|
  {
    if outcomes == [] then 0
    else CountCorrect(outcomes[..|outcomes| - 1]) + (if outcomes[|outcomes| - 1] then 1 else 0)
  }

  /** The record left by grading a history of outcomes, oldest first. */
  function Replay(outcomes: seq<bool>): Record {
    if outcomes == [] then Unseen
    else Graded(Replay(outcomes[..|outcomes| - 1]), outcomes[|outcomes| - 1])
  }

  /** A record summarises its history: correct answers counted, attempts
      counted, and mastered exactly when the latest outcome was correct and
      the count has reached the threshold. */
  lemma {:induction false} ReplaySummary(outcomes: seq<bool>)
    ensures Replay(outcomes).correctCount == CountCorrect(outcomes)
    ensures Replay(outcomes).totalAttempts == |outcomes|
    ensures Replay(outcomes).mastered <==>
      outcomes != [] && outcomes[|outcomes| - 1] && CountCorrect(outcomes) >= MasteryThreshold
    ensures RecordValid(Replay(outcomes))
  {
    if outcomes != [] {
      ReplaySummary(outcomes[..|outcomes| - 1]);
    }
  }

  /** From an unseen question, an unbroken run of correct answers unlocks
      mastery on the seventh answer and on no other. */
  lemma RunUnlocksOnSeventh(n: nat)
    ensures UnlocksMastery(Replay(seq(n, _ => true))) <==> n + 1 == MasteryThreshold
  {
    var run := seq(n, _ => true);
    ReplaySummary(run);
    CountOfRun(n);
  }

  lemma {:induction false} CountOfRun(n: nat)
    ensures CountCorrect(seq(n, _ => true)) == n
  {
    if n > 0 {
      var run := seq(n, _ => true);
      assert run[..n - 1] == seq(n - 1, _ => true);
      CountOfRun(n - 1);
    }
  }

  /** Mastery is lost on a failed attempt and unlocked again by the next
      correct answer: once mastered, a question re-enters sentence mode
      after any failure. */
  lemma MasteryReenters(cur: Record)
    requires RecordValid(cur) && cur.mastered
    ensures !UnlocksMastery(cur)
    ensures !Graded(cur, false).mastered
    ensures UnlocksMastery(Graded(cur, false))
  {
  }
}
