/**
 * The string-category eligibility rule
 * (ImplementationFreeMeal/freemeal.py, `is_eligible_for_free_meal`).
 * Every key has a default, so no input raises: an absent key is `None`
 * here and takes the default the source gives it.
 */
module FreeMeal {
  import opened Wrappers
  import opened IncomeLimits

  datatype StudentInfo = StudentInfo(
    income: Option<int>,
    totalChildren: Option<int>,
    siblingsInUniversity: Option<int>,
    unemploymentBenefit: Option<bool>,
    permanentResidenceSameCity: Option<bool>,
    specialCategory: Option<string>,
    age: Option<int>,
    maritalStatus: Option<string>)
  {
    function Income(): int { income.GetOr(0) }
    function TotalChildren(): int { totalChildren.GetOr(1) }
    function Siblings(): int { siblingsInUniversity.GetOr(0) }
    predicate Unemployed() { unemploymentBenefit.GetOr(false) }
    predicate SameCity() { permanentResidenceSameCity.GetOr(false) }
    function Age(): int { age.GetOr(0) }
    function MaritalStatus(): string { maritalStatus.GetOr("single") }
  }

  /** The categories that grant eligibility outright, whatever the age. */
  const SpecialCategories: seq<string> :=
    ["polytelos", "trimelos", "orphans", "disabled_family", "serious_disease", "terrorism_victim_child"]

  /** One limit for single and married students alike; no clamp on `total_children - 1`. */
  function IncomeLimit(totalChildren: int, siblings: int): int {
    45000 + 5000 * (totalChildren - 1) + 3000 * siblings
  }

  predicate IsEligibleForFreeMeal(s: StudentInfo)
    ensures s.Unemployed() ==> IsEligibleForFreeMeal(s)
    ensures s.specialCategory.Some? && s.specialCategory.value in SpecialCategories ==> IsEligibleForFreeMeal(s)
    ensures !s.Unemployed() && !(s.specialCategory.Some? && s.specialCategory.value in SpecialCategories) ==>
              (IsEligibleForFreeMeal(s) <==>
                 || (s.MaritalStatus() == "single" && s.Age() <= 25
                     && WithinLimit(s.Income(), IncomeLimit(s.TotalChildren(), s.Siblings()), s.SameCity()))
                 || (s.MaritalStatus() == "married"
                     && WithinLimit(s.Income(), IncomeLimit(s.TotalChildren(), s.Siblings()), s.SameCity()))
                 || (s.MaritalStatus() == "single" && s.Age() > 25 && s.Income() <= 25000))
    ensures s.MaritalStatus() != "single" && s.MaritalStatus() != "married" ==>
              (IsEligibleForFreeMeal(s) <==>
                 s.Unemployed() || (s.specialCategory.Some? && s.specialCategory.value in SpecialCategories))
  {
    var limit := IncomeLimit(s.TotalChildren(), s.Siblings());
    if s.Unemployed() then true
    else if s.specialCategory.Some? && s.specialCategory.value in SpecialCategories then true
    else if s.MaritalStatus() == "single" && s.Age() <= 25 && WithinLimit(s.Income(), limit, s.SameCity()) then true
    else if s.MaritalStatus() == "married" && WithinLimit(s.Income(), limit, s.SameCity()) then true
    else if s.MaritalStatus() == "single" && s.Age() > 25 && s.Income() <= 25000 then true
    else false
  }

  /** With no children counted the limit is 40000, 5000 below the base. */
  lemma NoChildrenLimit(siblings: int)
    ensures IncomeLimit(0, siblings) == 40000 + 3000 * siblings
  {
  }

  /** An empty record is eligible: income 0 against the limit of a single 0-year-old with one child. */
  lemma EmptyRecordEligible()
    ensures IsEligibleForFreeMeal(StudentInfo(None, None, None, None, None, None, None, None))
  {
  }
}
