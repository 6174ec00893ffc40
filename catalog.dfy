/** The fixed verb catalogue of the quiz, the progress keys built from a
    question, the split of such a key back into its parts for the review
    panel, and the lookup of the form a question expects. */
module Catalog {
  import opened Wrappers
  import opened Normalization

  /** The six forms of one tense, in pronoun order. */
  datatype TenseForms = TenseForms(tense: string, forms: seq<string>)

  /** A verb, its ending class ("ar", "er" or "ir") and its tenses in the
      order they are declared. */
  datatype Verb = Verb(verb: string, kind: string, conjugations: seq<TenseForms>)

  const Hablar := Verb("hablar", "ar", [
    TenseForms("Presente", ["hablo", "hablas", "habla", "hablamos", "habláis", "hablan"]),
    TenseForms("Pretérito", ["hablé", "hablaste", "habló", "hablamos", "hablasteis", "hablaron"]),
    TenseForms("Imperfecto", ["hablaba", "hablabas", "hablaba", "hablábamos", "hablabais", "hablaban"]),
    TenseForms("Futuro", ["hablaré", "hablarás", "hablará", "hablaremos", "hablaréis", "hablarán"])])

  const Comer := Verb("comer", "er", [
    TenseForms("Presente", ["como", "comes", "come", "comemos", "coméis", "comen"]),
    TenseForms("Pretérito", ["comí", "comiste", "comió", "comimos", "comisteis", "comieron"]),
    TenseForms("Imperfecto", ["comía", "comías", "comía", "comíamos", "comíais", "comían"]),
    TenseForms("Futuro", ["comeré", "comerás", "comerá", "comeremos", "comeréis", "comerán"])])

  const Vivir := Verb("vivir", "ir", [
    TenseForms("Presente", ["vivo", "vives", "vive", "vivimos", "vivís", "viven"]),
    TenseForms("Pretérito", ["viví", "viviste", "vivió", "vivimos", "vivisteis", "vivieron"]),
    TenseForms("Imperfecto", ["vivía", "vivías", "vivía", "vivíamos", "vivíais", "vivían"]),
    TenseForms("Futuro", ["viviré", "vivirás", "vivirá", "viviremos", "viviréis", "vivirán"])])

  const Verbs: seq<Verb> := [Hablar, Comer, Vivir]

  const Pronouns: seq<string> := [
    "yo", "tú", "él/ella/usted", "nosotros/as", "vosotros/as", "ellos/ellas/ustedes"
  ]

  /** The separator between the three parts of a progress key. */
  const KeySeparator: char := '-'

  /** The names of a verb's tenses, in declaration order (the object's keys). */
  function TenseKeys(v: Verb): seq<string> {
    seq(|v.conjugations|, i requires 0 <= i < |v.conjugations| => v.conjugations[i].tense)
  }

  /** Property access on the conjugation table: the forms stored under
      `tense`, or None when the table has no such tense. */
  function Lookup(entries: seq<TenseForms>, tense: string): (r: Option<seq<string>>)
    ensures r.None? <==> forall i :: 0 <= i < |entries| ==> entries[i].tense != tense
    ensures r.Some? ==> exists i :: 0 <= i < |entries| && entries[i] == TenseForms(tense, r.value)
  {
    if entries == [] then None
    else if entries[0].tense == tense then Some(entries[0].forms)
    else
      var r := Lookup(entries[1..], tense);
      assert r.Some? ==> exists i :: 0 <= i < |entries| && entries[i] == TenseForms(tense, r.value) by {
        if r.Some? {
          var i :| 0 <= i < |entries[1..]| && entries[1..][i] == TenseForms(tense, r.value);
          assert entries[i + 1] == TenseForms(tense, r.value);
        }
      }
      r
  }

  /** `Array.prototype.indexOf`: the first position holding `x`, or -1. */
  function IndexOf<T(==)>(s: seq<T>, x: T): (r: int)
    ensures -1 <= r < |s|
    ensures r == -1 <==> x !in s
    ensures 0 <= r ==> s[r] == x && forall j :: 0 <= j < r ==> s[j] != x
  {
    if s == [] then -1
    else if s[0] == x then 0
    else
      var k := IndexOf(s[1..], x);
      assert x in s[1..] ==> x in s;
      assert x in s ==> x in s[1..] by {
        if x in s {
          var j :| 0 <= j < |s| && s[j] == x;
          assert s[1..][j - 1] == x;
        }
      }
      if k == -1 then -1 else k + 1
  }

  function PronounIndex(p: string): int {
    IndexOf(Pronouns, p)
  }

  function GenerateKey(verb: string, tense: string, pronoun: string): string {
    verb + [KeySeparator] + tense + [KeySeparator] + pronoun
  }

  /** `String.prototype.split` with a one-character separator: the pieces
      between separators, empty pieces included. */
  function Split(s: string, sep: char): (r: seq<string>)
    ensures |r| >= 1
    ensures forall i :: 0 <= i < |r| ==> sep !in r[i]
  {
    if s == [] then [[]]
    else
      var rest := Split(s[1..], sep);
      if s[0] == sep then [[]] + rest
      else [[s[0]] + rest[0]] + rest[1..]
  }

  /** The inverse of Split: the pieces glued back with the separator. */
  function Join(parts: seq<string>, sep: char): string
    requires |parts| >= 1
  {
    if |parts| == 1 then parts[0] else parts[0] + [sep] + Join(parts[1..], sep)
  }

  /** Gluing the pieces of a split gives back the string. */
  lemma {:induction false} JoinSplit(s: string, sep: char)
    ensures Join(Split(s, sep), sep) == s
  {
    if s != [] {
      var rest := Split(s[1..], sep);
      JoinSplit(s[1..], sep);
      if s[0] == sep {
        assert Split(s, sep)[1..] == rest;
      } else {
        var r := Split(s, sep);
        assert r[1..] == rest[1..];
        if |rest| == 1 {
          assert Join(r, sep) == [s[0]] + rest[0];
        } else {
          assert Join(r, sep) == [s[0]] + rest[0] + [sep] + Join(rest[1..], sep);
        }
        assert s == [s[0]] + s[1..];
      }
    }
  }

  /** A string without the separator splits into itself alone. */
  lemma {:induction false} SplitWithoutSeparator(a: string, sep: char)
    requires sep !in a
    ensures Split(a, sep) == [a]
  {
    if a != [] {
      SplitWithoutSeparator(a[1..], sep);
      assert a == [a[0]] + a[1..];
    }
  }

  /** Splitting cuts at the first separator. */
  lemma {:induction false} SplitAtSeparator(a: string, sep: char, b: string)
    requires sep !in a
    ensures Split(a + [sep] + b, sep) == [a] + Split(b, sep)
  {
    if a == [] {
      assert a + [sep] + b == [sep] + b;
      assert ([sep] + b)[1..] == b;
    } else {
      SplitAtSeparator(a[1..], sep, b);
      assert (a + [sep] + b)[1..] == a[1..] + [sep] + b;
      assert a == [a[0]] + a[1..];
    }
  }

  /** Splitting a progress key on the separator gives back the verb, the
      tense and the pronoun, provided none of them holds the separator. */
  lemma KeyRoundTrip(verb: string, tense: string, pronoun: string)
    requires KeySeparator !in verb && KeySeparator !in tense && KeySeparator !in pronoun
    ensures Split(GenerateKey(verb, tense, pronoun), KeySeparator) == [verb, tense, pronoun]
  {
    var sep := KeySeparator;
    assert GenerateKey(verb, tense, pronoun) == verb + [sep] + (tense + [sep] + pronoun);
    SplitAtSeparator(verb, sep, tense + [sep] + pronoun);
    SplitAtSeparator(tense, sep, pronoun);
    SplitWithoutSeparator(pronoun, sep);
  }

  /** The review panel destructures the first three pieces of a key. */
  function ReviewParts(key: string): (r: seq<string>)
    ensures 1 <= |r| <= 3
  {
    var parts := Split(key, KeySeparator);
    if |parts| <= 3 then parts else parts[..3]
  }

  /** One quiz prompt: a verb of the catalogue, one of its tenses and a pronoun. */
  datatype Question = Question(verb: Verb, tense: string, pronoun: string)

  /** A question that the catalogue can produce. */
  predicate ValidQuestion(q: Question) {
    q.verb in Verbs && q.tense in TenseKeys(q.verb) && q.pronoun in Pronouns
  }

  /** The draw of a question; the three random picks are the indices. */
  function GenerateQuestion(vi: nat, ti: nat, pi: nat): (q: Question)
    requires vi < |Verbs| && ti < |Verbs[vi].conjugations| && pi < |Pronouns|
    ensures ValidQuestion(q)
    ensures q.verb == Verbs[vi] && q.tense == Verbs[vi].conjugations[ti].tense && q.pronoun == Pronouns[pi]
  {
    var v := Verbs[vi];
    assert TenseKeys(v)[ti] == v.conjugations[ti].tense;
    Question(v, TenseKeys(v)[ti], Pronouns[pi])
  }

  /** Every question the catalogue allows is drawn by some choice of picks. */
  lemma EveryValidQuestionIsDrawn(q: Question)
    requires ValidQuestion(q)
    ensures exists vi: nat, ti: nat, pi: nat ::
      vi < |Verbs| && ti < |Verbs[vi].conjugations| && pi < |Pronouns| && GenerateQuestion(vi, ti, pi) == q
  {
    var vi :| 0 <= vi < |Verbs| && Verbs[vi] == q.verb;
    var ti :| 0 <= ti < |TenseKeys(q.verb)| && TenseKeys(q.verb)[ti] == q.tense;
    var pi :| 0 <= pi < |Pronouns| && Pronouns[pi] == q.pronoun;
    assert GenerateQuestion(vi, ti, pi) == q;
  }

  function KeyOf(q: Question): string {
    GenerateKey(q.verb.verb, q.tense, q.pronoun)
  }

  /** A tense of the catalogue: six forms, each starting with an ASCII letter or digit,
      and a name without the key separator. */
  predicate WellFormedTense(e: TenseForms) {
    KeySeparator !in e.tense && |e.forms| == |Pronouns|
    && forall i :: 0 <= i < |e.forms| ==> e.forms[i] != [] && IsAsciiAlnum(e.forms[i][0])
  }

  predicate WellFormedVerb(v: Verb) {
    KeySeparator !in v.verb && forall i :: 0 <= i < |v.conjugations| ==> WellFormedTense(v.conjugations[i])
  }

  lemma PronounsAreWellFormed()
    ensures |Pronouns| == 6
    ensures forall p :: p in Pronouns ==> KeySeparator !in p
  {
  }

  lemma HablarPresenteIsWellFormed()
    ensures WellFormedTense(Hablar.conjugations[0])
  {
  }

  lemma HablarPreteritoIsWellFormed()
    ensures WellFormedTense(Hablar.conjugations[1])
  {
  }

  lemma HablarImperfectoIsWellFormed()
    ensures WellFormedTense(Hablar.conjugations[2])
  {
  }

  lemma HablarFuturoIsWellFormed()
    ensures WellFormedTense(Hablar.conjugations[3])
  {
  }

  lemma HablarIsWellFormed()
    ensures WellFormedVerb(Hablar)
  {
    HablarPresenteIsWellFormed();
    HablarPreteritoIsWellFormed();
    HablarImperfectoIsWellFormed();
    HablarFuturoIsWellFormed();
  }

  lemma ComerPresenteIsWellFormed()
    ensures WellFormedTense(Comer.conjugations[0])
  {
  }

  lemma ComerPreteritoIsWellFormed()
    ensures WellFormedTense(Comer.conjugations[1])
  {
  }

  lemma ComerImperfectoIsWellFormed()
    ensures WellFormedTense(Comer.conjugations[2])
  {
  }

  lemma ComerFuturoIsWellFormed()
    ensures WellFormedTense(Comer.conjugations[3])
  {
  }

  lemma ComerIsWellFormed()
    ensures WellFormedVerb(Comer)
  {
    ComerPresenteIsWellFormed();
    ComerPreteritoIsWellFormed();
    ComerImperfectoIsWellFormed();
    ComerFuturoIsWellFormed();
  }

  lemma VivirPresenteIsWellFormed()
    ensures WellFormedTense(Vivir.conjugations[0])
  {
  }

  lemma VivirPreteritoIsWellFormed()
    ensures WellFormedTense(Vivir.conjugations[1])
  {
  }

  lemma VivirImperfectoIsWellFormed()
    ensures WellFormedTense(Vivir.conjugations[2])
  {
  }

  lemma VivirFuturoIsWellFormed()
    ensures WellFormedTense(Vivir.conjugations[3])
  {
  }

  lemma VivirIsWellFormed()
    ensures WellFormedVerb(Vivir)
  {
    VivirPresenteIsWellFormed();
    VivirPreteritoIsWellFormed();
    VivirImperfectoIsWellFormed();
    VivirFuturoIsWellFormed();
  }

  lemma CatalogIsWellFormed()
    ensures forall v :: v in Verbs ==> WellFormedVerb(v)
  {
    HablarIsWellFormed();
    ComerIsWellFormed();
    VivirIsWellFormed();
  }

  /** The tense names of a verb are pairwise different. */
  predicate DistinctTenses(v: Verb) {
    forall i, j :: 0 <= j < i < |v.conjugations| ==> v.conjugations[j].tense != v.conjugations[i].tense
  }

  lemma TensesAreDistinct()
    ensures forall v :: v in Verbs ==> DistinctTenses(v)
  {
    assert DistinctTenses(Hablar);
    assert DistinctTenses(Comer);
    assert DistinctTenses(Vivir);
  }

  lemma PronounsAreDistinct()
    ensures forall i, j :: 0 <= j < i < |Pronouns| ==> Pronouns[j] != Pronouns[i]
  {
  }

  /** The lookup finds the first entry with the requested tense. */
  lemma {:induction false} LookupFindsEntry(entries: seq<TenseForms>, i: nat)
    requires i < |entries|
    requires forall j :: 0 <= j < i ==> entries[j].tense != entries[i].tense
    ensures Lookup(entries, entries[i].tense) == Some(entries[i].forms)
  {
    if i > 0 {
      LookupFindsEntry(entries[1..], i - 1);
    }
  }

  /** A valid question's tense is in its verb's table, that entry holds six
      forms, each starting with an ASCII letter or digit, and the pronoun's index
      is a position among them. */
  lemma LookupInBounds(q: Question)
    requires ValidQuestion(q)
    ensures Lookup(q.verb.conjugations, q.tense).Some?
    ensures var forms := Lookup(q.verb.conjugations, q.tense).value;
      |forms| == |Pronouns| == 6
      && (forall i :: 0 <= i < |forms| ==> forms[i] != [] && IsAsciiAlnum(forms[i][0]))
    ensures 0 <= PronounIndex(q.pronoun) < 6 && Pronouns[PronounIndex(q.pronoun)] == q.pronoun
  {
    CatalogIsWellFormed();
    PronounsAreWellFormed();
    var entries := q.verb.conjugations;
    var k :| 0 <= k < |TenseKeys(q.verb)| && TenseKeys(q.verb)[k] == q.tense;
    assert entries[k].tense == q.tense;
    var r := Lookup(entries, q.tense);
    var j :| 0 <= j < |entries| && entries[j] == TenseForms(q.tense, r.value);
    assert WellFormedTense(entries[j]);
  }

  /** The form a question expects: the entry of its tense at its pronoun's
      index. It always survives normalisation as a non-empty string, so a
      blank answer can never equal or contain it. */
  function ExpectedForm(q: Question): (r: string)
    requires ValidQuestion(q)
    ensures r != [] && IsAsciiAlnum(r[0])
    ensures Normalize(r) != []
  {
    LookupInBounds(q);
    var r := Lookup(q.verb.conjugations, q.tense).value[PronounIndex(q.pronoun)];
    LeadingAlnumSurvives(r);
    r
  }

  /** A drawn question expects the drawn tense's form at the drawn pronoun's
      position. */
  lemma DrawnQuestionExpects(vi: nat, ti: nat, pi: nat)
    requires vi < |Verbs| && ti < |Verbs[vi].conjugations| && pi < |Pronouns|
    ensures ExpectedForm(GenerateQuestion(vi, ti, pi)) == Verbs[vi].conjugations[ti].forms[pi]
  {
    var q := GenerateQuestion(vi, ti, pi);
    TensesAreDistinct();
    PronounsAreDistinct();
    assert q.tense == Verbs[vi].conjugations[ti].tense;
    LookupFindsEntry(Verbs[vi].conjugations, ti);
    assert PronounIndex(q.pronoun) == pi;
  }

  /** The review panel shows a question's key as its verb, tense and pronoun. */
  lemma ReviewShowsQuestion(q: Question)
    requires ValidQuestion(q)
    ensures ReviewParts(KeyOf(q)) == [q.verb.verb, q.tense, q.pronoun]
  {
    CatalogIsWellFormed();
    PronounsAreWellFormed();
    var k :| 0 <= k < |TenseKeys(q.verb)| && TenseKeys(q.verb)[k] == q.tense;
    assert WellFormedTense(q.verb.conjugations[k]);
    KeyRoundTrip(q.verb.verb, q.tense, q.pronoun);
  }
}
