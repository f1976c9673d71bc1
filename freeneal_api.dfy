/**
 * The boolean eligibility rule of the Flask service
 * (ImplementationFreeMeal/freenealAPI.py, `check_eligibility`): the
 * unemployment-benefit override and the income rules, with no
 * categorical overrides. Missing keys are read as in `Eligibility`.
 */
module FreenealApi {
  import opened Wrappers
  import opened IncomeLimits

  /** The eight keys the function reads. */
  datatype Request = Request(
    maritalStatus: Option<string>,
    age: Option<int>,
    annualIncome: Option<int>,
    familyIncome: Option<int>,
    numberOfChildren: Option<int>,
    siblingsInUniversity: Option<int>,
    unemploymentBenefit: Option<bool>,
    permanentResidence: Option<string>)
  {
    function Children(): int { numberOfChildren.GetOr(0) }
    function Siblings(): int { siblingsInUniversity.GetOr(0) }
    predicate Unemployed() { unemploymentBenefit.GetOr(false) }
    predicate SameCity() { permanentResidence == Some("same_city") }
  }

  /** A returned boolean, or the `TypeError` raised when a missing number is compared. */
  datatype Answer = Returns(eligible: bool) | RaisesTypeError

  function CheckEligibility(d: Request): (r: Answer)
    ensures d.Unemployed() ==> r == Returns(true)
    ensures !d.Unemployed() && d.maritalStatus == Some("single") && d.age.Some? && d.age.value > 25 ==>
              r == if d.annualIncome.None? then RaisesTypeError else Returns(d.annualIncome.value <= 25000)
    ensures !d.Unemployed() && d.maritalStatus == Some("single") && d.age.Some? && d.age.value <= 25 ==>
              var limit := 45000 + 5000 * ClampAtZero(d.Children() - 1) + 3000 * d.Siblings();
              && (d.familyIncome.None? ==> r == RaisesTypeError)
              && (d.familyIncome.Some? && !d.SameCity() ==> r == Returns(d.familyIncome.value <= limit))
              && (d.familyIncome.Some? && d.SameCity() ==> r == Returns(10 * d.familyIncome.value <= 9 * limit))
    ensures !d.Unemployed() && d.maritalStatus == Some("single") && d.age.None? ==> r == RaisesTypeError
    ensures !d.Unemployed() && d.maritalStatus == Some("married") ==>
              var limit := 45000 + 5000 * d.Children();
              && (d.familyIncome.None? ==> r == RaisesTypeError)
              && (d.familyIncome.Some? && !d.SameCity() ==> r == Returns(d.familyIncome.value <= limit))
              && (d.familyIncome.Some? && d.SameCity() ==> r == Returns(10 * d.familyIncome.value <= 9 * limit))
    ensures !d.Unemployed() && d.maritalStatus != Some("single") && d.maritalStatus != Some("married") ==>
              r == Returns(false)
  {
    if d.Unemployed() then Returns(true)
    else if d.maritalStatus == Some("single") then
      if d.age.None? then RaisesTypeError
      else if d.age.value > 25 then
        if d.annualIncome.None? then RaisesTypeError else Returns(d.annualIncome.value <= 25000)
      else
        var limit := 45000 + 5000 * ClampAtZero(d.Children() - 1) + 3000 * d.Siblings();
        if d.familyIncome.None? then RaisesTypeError
        else Returns(WithinLimit(d.familyIncome.value, limit, d.SameCity()))
    else if d.maritalStatus == Some("married") then
      var limit := 45000 + 5000 * d.Children();
      if d.familyIncome.None? then RaisesTypeError
      else Returns(WithinLimit(d.familyIncome.value, limit, d.SameCity()))
    else Returns(false)
  }
}
