/**
 * The self-assessment quote resolver of the assessment page: ten questions
 * (five interior, five exterior), each with three options tagged with a
 * condition category; a section's category is the worst among its answered
 * questions, and a fixed table turns categories into a price.
 */
module SelfAssess {
  import opened Wrappers

  /** Condition categories, in increasing severity. */
  datatype Category = Light | Moderate | Severe

  function Rank(c: Category): nat {
    match c
    case Light => 0
    case Moderate => 1
    case Severe => 2
  }

  /** `categoryOrder`: most severe first. */
  const CategoryOrder: seq<Category> := [Severe, Moderate, Light]

  datatype Section = Interior | Exterior

  /** The service type picked on the page ("interior", "exterior", "both"). */
  datatype ServiceType = InteriorOnly | ExteriorOnly | Both

  /** A question: its text and the category of each option, in display order. */
  datatype Question = Question(text: string, options: seq<Category>)

  const InteriorQuestions: seq<Question> := [
    Question("Overall Interior Cleanliness", [Light, Moderate, Severe]),
    Question("Interior Smell", [Light, Moderate, Severe]),
    Question("Seats & Upholstery", [Light, Moderate, Severe]),
    Question("Carpets & Mats", [Light, Moderate, Severe]),
    Question("Dashboard & Panels", [Light, Moderate, Severe])
  ]

  const ExteriorQuestions: seq<Question> := [
    Question("Paint Condition", [Light, Moderate, Severe]),
    Question("Stuck-on Grime (Tar, Sap)", [Light, Moderate, Severe]),
    Question("Wheels & Tires", [Light, Moderate, Severe]),
    Question("Windows & Glass", [Light, Moderate, Severe]),
    Question("Undercarriage & Wheel Wells", [Light, Moderate, Severe])
  ]

  const QuestionsPerSection: nat := 5
  const OptionsPerQuestion: nat := 3

  function Questions(section: Section): (qs: seq<Question>)
    ensures |qs| == QuestionsPerSection
    ensures forall q | 0 <= q < |qs| :: |qs[q].options| == OptionsPerQuestion
    ensures forall q | 0 <= q < |qs| :: qs[q].options == [Light, Moderate, Severe]
  {
    match section
    case Interior => InteriorQuestions
    case Exterior => ExteriorQuestions
  }

  /** The answers state: `(section, question index) -> selected option index`,
      the page's `${section}_${qIdx}` keys. */
  type Answers = map<(Section, nat), nat>

  /** Every answer to an existing question selects an existing option, as
      `q.options[selectedIdx].category` needs (otherwise it throws). */
  ghost predicate WellFormed(answers: Answers) {
    forall k | k in answers && k.1 < QuestionsPerSection :: answers[k] < OptionsPerQuestion
  }

  /** Only keys of existing questions are present (what the radio buttons
      can produce). */
  ghost predicate ValidKeys(answers: Answers) {
    forall k | k in answers :: k.1 < QuestionsPerSection
  }

  predicate Answered(answers: Answers, section: Section, q: nat) {
    q < QuestionsPerSection && (section, q) in answers
  }

  /** The category of the option selected for an answered question. */
  function AnswerCategory(answers: Answers, section: Section, q: nat): Category
    requires WellFormed(answers) && Answered(answers, section, q)
  {
    Questions(section)[q].options[answers[(section, q)]]
  }

  /** Question `q` of `section` is answered with an option of category `cat`. */
  predicate AnsweredWith(answers: Answers, section: Section, q: nat, cat: Category)
    requires WellFormed(answers)
  {
    Answered(answers, section, q) && AnswerCategory(answers, section, q) == cat
  }

  /** `questions.some(...)` from index `from` on. */
  function SomeAnsweredWith(answers: Answers, section: Section, cat: Category, from: nat): (found: bool)
    requires WellFormed(answers)
    ensures found <==> exists q | from <= q < QuestionsPerSection :: AnsweredWith(answers, section, q, cat)
    decreases QuestionsPerSection - from
  {
    if from >= QuestionsPerSection then false
    else AnsweredWith(answers, section, from, cat) || SomeAnsweredWith(answers, section, cat, from + 1)
  }

  /** The first category of `order` that some answered question of the
      section carries. */
  function FirstPresent(answers: Answers, section: Section, order: seq<Category>): (r: Option<Category>)
    requires WellFormed(answers)
    ensures r.None? <==> forall i | 0 <= i < |order| :: !SomeAnsweredWith(answers, section, order[i], 0)
    ensures r.Some? ==> exists j | 0 <= j < |order| :: order[j] == r.value
                          && SomeAnsweredWith(answers, section, r.value, 0)
                          && forall i | 0 <= i < j :: !SomeAnsweredWith(answers, section, order[i], 0)
  {
    if order == [] then None
    else if SomeAnsweredWith(answers, section, order[0], 0) then Some(order[0])
    else
      var r := FirstPresent(answers, section, order[1..]);
      assert forall i | 1 <= i < |order| :: order[i] == order[1..][i - 1];
      assert r.Some? ==> exists j | 0 <= j < |order| :: order[j] == r.value
                          && SomeAnsweredWith(answers, section, r.value, 0)
                          && forall i | 0 <= i < j :: !SomeAnsweredWith(answers, section, order[i], 0) by {
        if r.Some? {
          var j :| 0 <= j < |order[1..]| && order[1..][j] == r.value
                  && SomeAnsweredWith(answers, section, r.value, 0)
                  && forall i | 0 <= i < j :: !SomeAnsweredWith(answers, section, order[1..][i], 0);
          assert order[j + 1] == r.value;
        }
      }
      r
  }

  /** `getMostSevere(answers, questions, section)`. */
  function MostSevere(answers: Answers, section: Section): (r: Option<Category>)
    requires WellFormed(answers)
    ensures r.None? <==> forall q :: !Answered(answers, section, q)
    ensures r.Some? ==> exists q :: AnsweredWith(answers, section, q, r.value)
    ensures r.Some? ==> forall q | Answered(answers, section, q) ::
                          Rank(AnswerCategory(answers, section, q)) <= Rank(r.value)
  {
    var r := FirstPresent(answers, section, CategoryOrder);
    FirstPresentIsMostSevere(answers, section, r);
    r
  }

  lemma FirstPresentIsMostSevere(answers: Answers, section: Section, r: Option<Category>)
    requires WellFormed(answers)
    requires r == FirstPresent(answers, section, CategoryOrder)
    ensures r.None? <==> forall q :: !Answered(answers, section, q)
    ensures r.Some? ==> exists q :: AnsweredWith(answers, section, q, r.value)
    ensures r.Some? ==> forall q | Answered(answers, section, q) ::
                          Rank(AnswerCategory(answers, section, q)) <= Rank(r.value)
  {
    if r.None? {
      forall q | Answered(answers, section, q) ensures false {
        var c := AnswerCategory(answers, section, q);
        assert c == CategoryOrder[0] || c == CategoryOrder[1] || c == CategoryOrder[2];
        assert AnsweredWith(answers, section, q, c);
      }
    } else {
      var j :| 0 <= j < |CategoryOrder| && CategoryOrder[j] == r.value
               && SomeAnsweredWith(answers, section, r.value, 0)
               && forall i | 0 <= i < j :: !SomeAnsweredWith(answers, section, CategoryOrder[i], 0);
      forall q | Answered(answers, section, q)
        ensures Rank(AnswerCategory(answers, section, q)) <= Rank(r.value)
      {
        var c := AnswerCategory(answers, section, q);
        assert AnsweredWith(answers, section, q, c);
        assert SomeAnsweredWith(answers, section, c, 0);
        assert c == CategoryOrder[0] || c == CategoryOrder[1] || c == CategoryOrder[2];
      }
    }
  }

  /** Rank of an optional category, -1 for "no category". */
  function OptRank(c: Option<Category>): int {
    if c.None? then -1 else Rank(c.value)
  }

  /** The more severe of two optional categories (`None` when both are). */
  function MaxCategory(a: Option<Category>, b: Option<Category>): (r: Option<Category>)
    ensures r.None? <==> a.None? && b.None?
    ensures r == a || r == b
    ensures OptRank(r) >= OptRank(a) && OptRank(r) >= OptRank(b)
  {
    if OptRank(a) >= OptRank(b) then a else b
  }

  /** Two answer maps that agree on every question of `section`. */
  ghost predicate SameSection(a1: Answers, a2: Answers, section: Section) {
    forall q | q < QuestionsPerSection ::
      ((section, q) in a1 <==> (section, q) in a2)
      && ((section, q) in a1 ==> a1[(section, q)] == a2[(section, q)])
  }

  /** Only the section's own answers matter: unanswered questions and the
      other section's answers do not affect its category. */
  lemma MostSevereDependsOnSectionOnly(a1: Answers, a2: Answers, section: Section)
    requires WellFormed(a1) && WellFormed(a2)
    requires SameSection(a1, a2, section)
    ensures MostSevere(a1, section) == MostSevere(a2, section)
  {
    forall q, c ensures AnsweredWith(a1, section, q, c) <==> AnsweredWith(a2, section, q, c) {
    }
  }

  /** The answer map after `handleSelect(section, qIdx, oIdx)`. */
  function Select(answers: Answers, section: Section, q: nat, o: nat): (r: Answers)
    ensures (section, q) in r && r[(section, q)] == o
    ensures forall k | k != (section, q) :: (k in r <==> k in answers) && (k in r ==> r[k] == answers[k])
    ensures r.Keys == answers.Keys + {(section, q)}
  {
    answers[(section, q) := o]
  }

  /** Selecting an existing option of an existing question keeps the answer
      map well formed and its keys valid. */
  lemma SelectPreservesValidity(answers: Answers, section: Section, q: nat, o: nat)
    requires WellFormed(answers) && ValidKeys(answers)
    requires q < QuestionsPerSection && o < OptionsPerQuestion
    ensures WellFormed(Select(answers, section, q, o)) && ValidKeys(Select(answers, section, q, o))
  {
  }

  /** Monotonicity: answering a question with an option at least as severe
      as its previous answer never lowers the section's category. */
  lemma {:induction false} SelectMoreSevereNeverLowers(answers: Answers, section: Section, q: nat, o: nat)
    requires WellFormed(answers)
    requires q < QuestionsPerSection && o < OptionsPerQuestion
    requires Answered(answers, section, q) ==>
               Rank(Questions(section)[q].options[o]) >= Rank(AnswerCategory(answers, section, q))
    ensures WellFormed(Select(answers, section, q, o))
    ensures OptRank(MostSevere(Select(answers, section, q, o), section)) >= OptRank(MostSevere(answers, section))
  {
    var after := Select(answers, section, q, o);
    assert WellFormed(after);
    var before := MostSevere(answers, section);
    if before.Some? {
      var p :| AnsweredWith(answers, section, p, before.value);
      assert Answered(after, section, p);
      var c := AnswerCategory(after, section, p);
      assert Rank(c) >= Rank(before.value) by {
        if p != q {
          assert after[(section, p)] == answers[(section, p)];
        }
      }
      var m := MostSevere(after, section);
      assert m.Some?;
      assert Rank(c) <= Rank(m.value);
    }
  }

  /** The set of all ten valid answer keys. */
  const AllKeys: set<(Section, nat)> := {
    (Interior, 0), (Interior, 1), (Interior, 2), (Interior, 3), (Interior, 4),
    (Exterior, 0), (Exterior, 1), (Exterior, 2), (Exterior, 3), (Exterior, 4)
  }

  lemma {:induction false} SubsetCard<T>(a: set<T>, b: set<T>)
    requires a <= b
    ensures |a| <= |b|
    decreases a
  {
    if a != {} {
      var x :| x in a;
      SubsetCard(a - {x}, b - {x});
    }
  }

  /** `Object.keys(answers).length` never exceeds the ten questions. */
  lemma AnsweredCountBounded(answers: Answers)
    requires ValidKeys(answers)
    ensures |answers.Keys| <= 2 * QuestionsPerSection
  {
    forall k | k in answers.Keys ensures k in AllKeys {
      assert k == (k.0, k.1);
      assert k.1 == 0 || k.1 == 1 || k.1 == 2 || k.1 == 3 || k.1 == 4;
      if k.0 == Interior {} else {}
    }
    SubsetCard(answers.Keys, AllKeys);
    AllKeysCount();
  }

  lemma AllKeysCount()
    ensures |AllKeys| == 2 * QuestionsPerSection
  {
  }

  /** `categoryOrder.find(cat => cat === intCat || cat === extCat)`. */
  function FindIn(order: seq<Category>, a: Option<Category>, b: Option<Category>): (r: Option<Category>)
    ensures r.None? <==> forall i | 0 <= i < |order| :: a != Some(order[i]) && b != Some(order[i])
    ensures r.Some? ==> exists j | 0 <= j < |order| :: order[j] == r.value && (a == r || b == r)
                          && forall i | 0 <= i < j :: a != Some(order[i]) && b != Some(order[i])
  {
    if order == [] then None
    else if a == Some(order[0]) || b == Some(order[0]) then Some(order[0])
    else
      var r := FindIn(order[1..], a, b);
      assert forall i | 1 <= i < |order| :: order[i] == order[1..][i - 1];
      assert r.Some? ==> exists j | 0 <= j < |order| :: order[j] == r.value && (a == r || b == r)
                          && forall i | 0 <= i < j :: a != Some(order[i]) && b != Some(order[i]) by {
        if r.Some? {
          var j :| 0 <= j < |order[1..]| && order[1..][j] == r.value && (a == r || b == r)
                   && forall i | 0 <= i < j :: a != Some(order[1..][i]) && b != Some(order[1..][i]);
          assert order[j + 1] == r.value;
        }
      }
      r
  }

  /** The `recommended` category for a service type. */
  function Recommended(answers: Answers, st: ServiceType): (r: Option<Category>)
    requires WellFormed(answers)
    ensures st == InteriorOnly ==> r == MostSevere(answers, Interior)
    ensures st == ExteriorOnly ==> r == MostSevere(answers, Exterior)
    ensures st == Both ==> r == MaxCategory(MostSevere(answers, Interior), MostSevere(answers, Exterior))
  {
    match st
    case InteriorOnly => MostSevere(answers, Interior)
    case ExteriorOnly => MostSevere(answers, Exterior)
    case Both =>
      var intCat := MostSevere(answers, Interior);
      var extCat := MostSevere(answers, Exterior);
      if intCat.None? && extCat.None? then None
      else
        var r := FindIn(CategoryOrder, intCat, extCat);
        FindInIsMax(intCat, extCat, r);
        r
  }

  lemma FindInIsMax(a: Option<Category>, b: Option<Category>, r: Option<Category>)
    requires a.Some? || b.Some?
    requires r == FindIn(CategoryOrder, a, b)
    ensures r == MaxCategory(a, b)
  {
    if a.Some? {
      assert a.value == CategoryOrder[0] || a.value == CategoryOrder[1] || a.value == CategoryOrder[2];
    } else {
      assert b.value == CategoryOrder[0] || b.value == CategoryOrder[1] || b.value == CategoryOrder[2];
    }
    var j :| 0 <= j < |CategoryOrder| && CategoryOrder[j] == r.value && (a == r || b == r)
             && forall i | 0 <= i < j :: a != Some(CategoryOrder[i]) && b != Some(CategoryOrder[i]);
    if a.Some? {
      assert a.value == CategoryOrder[0] || a.value == CategoryOrder[1] || a.value == CategoryOrder[2];
    }
    if b.Some? {
      assert b.value == CategoryOrder[0] || b.value == CategoryOrder[1] || b.value == CategoryOrder[2];
    }
  }

  /** `priceTable[category][side]`, in pesos. */
  function TablePrice(c: Category, side: Section): (p: nat)
    ensures side == Interior ==> p in {400, 800, 2000}
    ensures side == Exterior ==> p in {400, 900, 1500}
    ensures Rank(c) == 0 ==> p == 400
  {
    match (c, side)
    case (Light, Interior) => 400
    case (Light, Exterior) => 400
    case (Moderate, Interior) => 800
    case (Moderate, Exterior) => 900
    case (Severe, Interior) => 2000
    case (Severe, Exterior) => 1500
  }

  /** A worse condition never costs less: on each side the price strictly
      rises with severity. With the price sets and the Light entry this
      fixes the whole table. */
  lemma PricesRiseWithSeverity(side: Section, c: Category, d: Category)
    requires Rank(c) < Rank(d)
    ensures TablePrice(c, side) < TablePrice(d, side)
  {
  }

  /** The quoted `price`: `None` exactly when there is no recommendation;
      a single-side quote is that side's table price at the recommended
      category; a full-service quote prices each side at that side's own
      category and adds the two, or takes the one answered side's price;
      every quote lies in 400..3500. */
  function Price(answers: Answers, st: ServiceType): (r: Option<nat>)
    requires WellFormed(answers)
    ensures r.None? <==> Recommended(answers, st).None?
    ensures st == InteriorOnly && r.Some? ==> r.value == TablePrice(Recommended(answers, st).value, Interior)
    ensures st == ExteriorOnly && r.Some? ==> r.value == TablePrice(Recommended(answers, st).value, Exterior)
    ensures st == Both ==>
              var i := MostSevere(answers, Interior);
              var e := MostSevere(answers, Exterior);
              r == if i.Some? && e.Some? then Some(TablePrice(i.value, Interior) + TablePrice(e.value, Exterior))
                   else if i.Some? then Some(TablePrice(i.value, Interior))
                   else if e.Some? then Some(TablePrice(e.value, Exterior))
                   else None
    ensures r.Some? ==> 400 <= r.value <= 3500
  {
    var recommended := Recommended(answers, st);
    if recommended.None? then None
    else match st
      case Both =>
        var intCat := MostSevere(answers, Interior);
        var extCat := MostSevere(answers, Exterior);
        if intCat.Some? && extCat.Some? then
          Some(TablePrice(intCat.value, Interior) + TablePrice(extCat.value, Exterior))
        else if intCat.Some? then Some(TablePrice(intCat.value, Interior))
        else Some(TablePrice(extCat.value, Exterior))
      case InteriorOnly => Some(TablePrice(recommended.value, Interior))
      case ExteriorOnly => Some(TablePrice(recommended.value, Exterior))
  }

  /** A single answered question in a section the service covers is enough
      for a recommendation and a price. */
  lemma OneAnswerSuffices(answers: Answers, st: ServiceType, section: Section, q: nat)
    requires WellFormed(answers) && Answered(answers, section, q)
    requires st == Both || (st == InteriorOnly && section == Interior) || (st == ExteriorOnly && section == Exterior)
    ensures Recommended(answers, st).Some? && Price(answers, st).Some?
  {
    assert MostSevere(answers, section).Some?;
  }

  /** With no answers there is neither a recommendation nor a price. */
  lemma EmptyAnswersIncomplete(st: ServiceType)
    ensures Recommended(map[], st).None? && Price(map[], st).None?
  {
  }

  /** Interior answers Light, Severe, Light, Light, Moderate: the interior
      recommendation is Severe, priced at the interior Severe entry. */
  lemma InteriorWorstExample()
    ensures var a := map[(Interior, 0) := 0, (Interior, 1) := 2, (Interior, 2) := 0,
                         (Interior, 3) := 0, (Interior, 4) := 1];
            Recommended(a, InteriorOnly) == Some(Severe) && Price(a, InteriorOnly) == Some(2000)
  {
    var a := map[(Interior, 0) := 0, (Interior, 1) := 2, (Interior, 2) := 0,
                 (Interior, 3) := 0, (Interior, 4) := 1];
    assert AnsweredWith(a, Interior, 1, Severe);
  }

  /** Interior worst Moderate and exterior worst Severe: the full-service
      recommendation is Severe, yet the quote is 800 + 1500, not the
      3500 that pricing both sides at the combined category would give. */
  lemma BothUsesOwnCategoriesExample()
    ensures var a := map[(Interior, 0) := 1, (Exterior, 0) := 2];
            && Recommended(a, Both) == Some(Severe)
            && Price(a, Both) == Some(2300)
            && Price(a, Both) != Some(TablePrice(Severe, Interior) + TablePrice(Severe, Exterior))
  {
    var a := map[(Interior, 0) := 1, (Exterior, 0) := 2];
    assert AnsweredWith(a, Interior, 0, Moderate);
    assert AnsweredWith(a, Exterior, 0, Severe);
    assert MostSevere(a, Interior) == Some(Moderate);
  }
}
