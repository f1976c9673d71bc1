/**
 * How the three eligibility rules relate: where they agree and concrete
 * applicants on which they disagree.
 */
module EligibilityVariants {
  import opened Wrappers
  import Eligibility
  import FreenealApi
  import FreeMeal

  /** The eight keys of an applicant that the Flask service reads. */
  function ToRequest(a: Eligibility.Applicant): FreenealApi.Request {
    FreenealApi.Request(a.maritalStatus, a.age, a.annualIncome, a.familyIncome,
                        a.numberOfChildren, a.siblingsInUniversity, a.unemploymentBenefit, a.permanentResidence)
  }

  /** The boolean half of a `(bool, message)` verdict. */
  function Eligible(o: Eligibility.Outcome): FreenealApi.Answer {
    match o
    case Verdict(b, _) => FreenealApi.Returns(b)
    case RaisesTypeError => FreenealApi.RaisesTypeError
  }

  predicate NoCategory(a: Eligibility.Applicant) {
    !a.LargeFamily() && !a.Orphan() && !a.FamilyDisability() && !a.TerrorismVictimChild()
  }

  /** With every categorical flag false, the two services give the same answer on every input. */
  lemma AgreeWithoutCategories(a: Eligibility.Applicant)
    requires NoCategory(a)
    ensures FreenealApi.CheckEligibility(ToRequest(a)) == Eligible(Eligibility.CheckEligibility(a))
  {
  }

  /** The categorical flags are invisible to the Flask service: the answer ignores them. */
  lemma CategoriesIgnored(a: Eligibility.Applicant, b: Eligibility.Applicant)
    requires a.(familyMemberDisability := None, orphanStatus := None, largeFamilyStatus := None,
                terrorismVictimChild := None)
          == b.(familyMemberDisability := None, orphanStatus := None, largeFamilyStatus := None,
                terrorismVictimChild := None)
    ensures FreenealApi.CheckEligibility(ToRequest(a)) == FreenealApi.CheckEligibility(ToRequest(b))
  {
  }

  /**
   * Wherever the Flask service grants, the message-returning rule grants too,
   * provided the age is given when the terrorism-victim flag is set (otherwise see
   * `TerrorismNoAgeDivergence`).
   */
  lemma MessageRuleAtLeastAsGenerous(a: Eligibility.Applicant)
    requires FreenealApi.CheckEligibility(ToRequest(a)) == FreenealApi.Returns(true)
    requires !a.TerrorismVictimChild() || a.age.Some?
    ensures Eligibility.CheckEligibility(a).Verdict? && Eligibility.CheckEligibility(a).eligible
  {
  }

  /**
   * Without an age the age-conditional category breaks the comparison: a married
   * terrorism victim's child with family income 1000 and no age is granted by the
   * Flask service, which never reads the flag, while the message rule raises TypeError
   * on `age < 25`.
   */
  lemma TerrorismNoAgeDivergence()
    ensures var a := Eligibility.NoData.(maritalStatus := Some("married"), familyIncome := Some(1000),
                             terrorismVictimChild := Some(true));
            && FreenealApi.CheckEligibility(ToRequest(a)) == FreenealApi.Returns(true)
            && Eligibility.CheckEligibility(a) == Eligibility.RaisesTypeError
  {
  }

  /** A single student aged 25 or less with at least one child counted: both family limits coincide. */
  lemma SingleYoungLimitsAgree(children: int, siblings: int)
    requires children >= 1
    ensures FreeMeal.IncomeLimit(children, siblings) == Eligibility.SingleLimit(children, siblings)
  {
  }

  /** A married student: `total_children` one more than `number_of_children`, no siblings, gives the same limit. */
  lemma MarriedLimitsAgreeShifted(children: int)
    ensures FreeMeal.IncomeLimit(children + 1, 0) == Eligibility.MarriedLimit(children)
  {
  }

  const NoStudent: FreeMeal.StudentInfo :=
    FreeMeal.StudentInfo(None, None, None, None, None, None, None, None)

  /** An orphan with a high family income: eligible by category in one service, not in the other. */
  lemma OrphanDivergence()
    ensures var a := Eligibility.NoData.(age := Some(22), maritalStatus := Some("single"), familyIncome := Some(100000),
                             orphanStatus := Some(true));
            && Eligibility.CheckEligibility(a) == Eligibility.Verdict(true, Eligibility.Orphan)
            && FreenealApi.CheckEligibility(ToRequest(a)) == FreenealApi.Returns(false)
  {
  }

  /** A terrorism victim's child aged 30 with personal income 30000: only the string-category rule grants. */
  lemma TerrorismAgeDivergence()
    ensures var a := Eligibility.NoData.(age := Some(30), maritalStatus := Some("single"), annualIncome := Some(30000),
                             terrorismVictimChild := Some(true));
            Eligibility.CheckEligibility(a) == Eligibility.Verdict(false, Eligibility.HighPersonalIncome)
    ensures var s := NoStudent.(age := Some(30), maritalStatus := Some("single"), income := Some(30000),
                                specialCategory := Some("terrorism_victim_child"));
            FreeMeal.IsEligibleForFreeMeal(s)
  {
  }

  /** A single 20-year-old with no children and family income 42000: 45000 is the limit in one rule, 40000 in the other. */
  lemma NoChildrenDivergence()
    ensures var a := Eligibility.NoData.(age := Some(20), maritalStatus := Some("single"), familyIncome := Some(42000),
                             numberOfChildren := Some(0));
            Eligibility.CheckEligibility(a) == Eligibility.Verdict(true, Eligibility.LowFamilyIncome)
    ensures var s := NoStudent.(age := Some(20), maritalStatus := Some("single"), income := Some(42000),
                                totalChildren := Some(0));
            !FreeMeal.IsEligibleForFreeMeal(s)
  {
  }

  /** A married student with one child and family income 48000: limit 50000 in one rule, 45000 in the other. */
  lemma MarriedChildDivergence()
    ensures var a := Eligibility.NoData.(age := Some(30), maritalStatus := Some("married"), familyIncome := Some(48000),
                             numberOfChildren := Some(1));
            Eligibility.CheckEligibility(a) == Eligibility.Verdict(true, Eligibility.LowFamilyIncome)
    ensures var s := NoStudent.(age := Some(30), maritalStatus := Some("married"), income := Some(48000),
                                totalChildren := Some(1));
            !FreeMeal.IsEligibleForFreeMeal(s)
  {
  }

  /** An empty request: not eligible by default in one rule, eligible by defaults in the other. */
  lemma EmptyRequestDivergence()
    ensures Eligibility.CheckEligibility(Eligibility.NoData) == Eligibility.Verdict(false, Eligibility.NotEligible)
    ensures FreenealApi.CheckEligibility(ToRequest(Eligibility.NoData)) == FreenealApi.Returns(false)
    ensures FreeMeal.IsEligibleForFreeMeal(NoStudent)
  {
  }
}
