/**
 * The free-meal eligibility rule with justification messages
 * (Free_Meal/app/eligibility.py, `check_eligibility`).
 *
 * The input is the JSON request body, read with `data.get`: a key with a
 * default is `None` here when absent and takes its default; a key without
 * a default reads as Python `None`, and comparing `None` with a number
 * raises `TypeError`, which is modelled as the `RaisesTypeError` outcome.
 */
module Eligibility {
  import opened Wrappers
  import opened IncomeLimits

  datatype Applicant = Applicant(
    age: Option<int>,
    maritalStatus: Option<string>,
    annualIncome: Option<int>,
    familyIncome: Option<int>,
    numberOfChildren: Option<int>,
    siblingsInUniversity: Option<int>,
    unemploymentBenefit: Option<bool>,
    permanentResidence: Option<string>,
    familyMemberDisability: Option<bool>,
    orphanStatus: Option<bool>,
    largeFamilyStatus: Option<bool>,
    terrorismVictimChild: Option<bool>)
  {
    function Children(): int { numberOfChildren.GetOr(0) }
    function Siblings(): int { siblingsInUniversity.GetOr(0) }
    predicate Unemployed() { unemploymentBenefit.GetOr(false) }
    predicate LargeFamily() { largeFamilyStatus.GetOr(false) }
    predicate Orphan() { orphanStatus.GetOr(false) }
    predicate FamilyDisability() { familyMemberDisability.GetOr(false) }
    predicate TerrorismVictimChild() { terrorismVictimChild.GetOr(false) }
    predicate SameCity() { permanentResidence == Some("same_city") }
  }

  /** One justification per distinct message the rule returns. */
  datatype Reason =
    | UnemploymentBenefit
    | LargeFamily
    | Orphan
    | FamilyDisability
    | TerrorismVictimChild
    | LowPersonalIncome
    | HighPersonalIncome
    | LowFamilyIncome
    | HighFamilyIncome
    | NotEligible
  {
    /** The reasons that come with an eligible verdict. */
    predicate Grants() {
      !(HighPersonalIncome? || HighFamilyIncome? || NotEligible?)
    }

    predicate IsPersonalIncome() { LowPersonalIncome? || HighPersonalIncome? }
    predicate IsFamilyIncome() { LowFamilyIncome? || HighFamilyIncome? }
  }

  /** The `(bool, message)` pair, or the `TypeError` raised on a missing number. */
  datatype Outcome = Verdict(eligible: bool, reason: Reason) | RaisesTypeError

  const PersonalIncomeCeiling: int := 25000
  const BaseFamilyLimit: int := 45000
  const PerChildIncrease: int := 5000
  const PerSiblingIncrease: int := 3000
  /** Age bound of the terrorism-victim category (strict) and of the single-student split. */
  const AgeBound: int := 25

  /** Limit for a single student aged 25 or less: the first child does not raise it. */
  function SingleLimit(children: int, siblings: int): int {
    BaseFamilyLimit + PerChildIncrease * ClampAtZero(children - 1) + PerSiblingIncrease * siblings
  }

  /** Limit for a married student: every child raises it. */
  function MarriedLimit(children: int): int {
    BaseFamilyLimit + PerChildIncrease * children
  }

  /** No automatic rule (unemployment benefit or category) decides the case. */
  predicate NoOverride(a: Applicant) {
    && !a.Unemployed() && !a.LargeFamily() && !a.Orphan() && !a.FamilyDisability()
    && (a.TerrorismVictimChild() ==> a.age.Some? && a.age.value >= AgeBound)
  }

  /** The message each reason is returned with. */
  function Message(reason: Reason): string {
    match reason
    case UnemploymentBenefit => "Δικαιούστε δωρεάν σίτιση λόγω επιδόματος ανεργίας."
    case LargeFamily => "Δικαιούστε δωρεάν σίτιση λόγω πολύτεκνης οικογένειας."
    case Orphan => "Δικαιούστε δωρεάν σίτιση λόγω ορφάνιας."
    case FamilyDisability => "Δικαιούστε δωρεάν σίτιση λόγω αναπηρίας μέλους της οικογένειας."
    case TerrorismVictimChild => "Δικαιούστε δωρεάν σίτιση λόγω ιδιότητας τέκνου θύματος τρομοκρατίας και ηλικίας μικρότερης των 25 ετών"
    case LowPersonalIncome => "Δικαιούστε δωρεάν σίτιση λόγω χαμηλού ατομικού εισοδήματος."
    case HighPersonalIncome => "Δεν δικαιούστε δωρεάν σίτιση λόγω υψηλού ατομικού εισοδήματος."
    case LowFamilyIncome => "Δικαιούστε δωρεάν σίτιση λόγω χαμηλού οικογενειακού εισοδήματος."
    case HighFamilyIncome => "Δεν δικαιούστε δωρεάν σίτιση λόγω υψηλού οικογενειακού εισοδήματος."
    case NotEligible => "Δεν πληροίτε τις προϋποθέσεις για δωρεάν σίτιση."
  }

  /** The income rule that applies when no automatic rule does. */
  function IncomeRule(a: Applicant): Outcome {
    if a.maritalStatus == Some("single") then
      if a.age.None? then RaisesTypeError
      else if a.age.value > AgeBound then
        if a.annualIncome.None? then RaisesTypeError
        else if a.annualIncome.value <= PersonalIncomeCeiling then Verdict(true, LowPersonalIncome)
        else Verdict(false, HighPersonalIncome)
      else
        if a.familyIncome.None? then RaisesTypeError
        else if WithinLimit(a.familyIncome.value, SingleLimit(a.Children(), a.Siblings()), a.SameCity())
        then Verdict(true, LowFamilyIncome)
        else Verdict(false, HighFamilyIncome)
    else if a.maritalStatus == Some("married") then
      if a.familyIncome.None? then RaisesTypeError
      else if WithinLimit(a.familyIncome.value, MarriedLimit(a.Children()), a.SameCity())
      then Verdict(true, LowFamilyIncome)
      else Verdict(false, HighFamilyIncome)
    else Verdict(false, NotEligible)
  }

  /** `check_eligibility`: the first rule that matches, in strict precedence order. */
  function CheckEligibility(a: Applicant): (r: Outcome)
    // the verdict and its justification agree
    ensures r.Verdict? ==> (r.eligible <==> r.reason.Grants())
    // 1. the unemployment benefit wins over everything, incomes included
    ensures a.Unemployed() ==> r == Verdict(true, UnemploymentBenefit)
    // 2. the categories, in this order, before any income rule
    ensures !a.Unemployed() && a.LargeFamily() ==> r == Verdict(true, LargeFamily)
    ensures !a.Unemployed() && !a.LargeFamily() && a.Orphan() ==> r == Verdict(true, Orphan)
    ensures !a.Unemployed() && !a.LargeFamily() && !a.Orphan() && a.FamilyDisability()
            ==> r == Verdict(true, FamilyDisability)
    ensures !a.Unemployed() && !a.LargeFamily() && !a.Orphan() && !a.FamilyDisability()
            && a.TerrorismVictimChild() ==>
              && (a.age.None? ==> r == RaisesTypeError)
              && (a.age.Some? && a.age.value < AgeBound ==> r == Verdict(true, TerrorismVictimChild))
    // a terrorism-victim child of 25 or older is judged by income like anybody else
    ensures NoOverride(a) ==> r == IncomeRule(a)
    // 3. single and over 25: personal income against 25000, boundary included
    ensures NoOverride(a) && a.maritalStatus == Some("single") && a.age.Some? && a.age.value > AgeBound
            && a.annualIncome.Some? ==>
              r.Verdict? && r.reason.IsPersonalIncome() && (r.eligible <==> a.annualIncome.value <= 25000)
    // single and 25 or younger: family income against the single limit, 10% less in the same city
    ensures NoOverride(a) && a.maritalStatus == Some("single") && a.age.Some? && a.age.value <= AgeBound
            && a.familyIncome.Some? ==>
              var limit := 45000 + 5000 * ClampAtZero(a.Children() - 1) + 3000 * a.Siblings();
              && r.Verdict? && r.reason.IsFamilyIncome()
              && (!a.SameCity() ==> (r.eligible <==> a.familyIncome.value <= limit))
              && (a.SameCity() ==> (r.eligible <==> 10 * a.familyIncome.value <= 9 * limit))
    // married: family income against the married limit, 10% less in the same city
    ensures NoOverride(a) && a.maritalStatus == Some("married") && a.familyIncome.Some? ==>
              var limit := 45000 + 5000 * a.Children();
              && r.Verdict? && r.reason.IsFamilyIncome()
              && (!a.SameCity() ==> (r.eligible <==> a.familyIncome.value <= limit))
              && (a.SameCity() ==> (r.eligible <==> 10 * a.familyIncome.value <= 9 * limit))
    // a missing age or income that the applicable income rule compares raises TypeError
    ensures NoOverride(a) && a.maritalStatus == Some("single") && a.age.None? ==> r == RaisesTypeError
    ensures (NoOverride(a) && a.maritalStatus == Some("single") && a.age.Some? && a.age.value > AgeBound
             && a.annualIncome.None?) ==> r == RaisesTypeError
    ensures (NoOverride(a) && (a.maritalStatus == Some("married")
               || (a.maritalStatus == Some("single") && a.age.Some? && a.age.value <= AgeBound))
             && a.familyIncome.None?) ==> r == RaisesTypeError
    // 4. any other marital status, missing included: not eligible, default message
    ensures NoOverride(a) && a.maritalStatus != Some("single") && a.maritalStatus != Some("married")
            ==> r == Verdict(false, NotEligible)
  {
    if a.Unemployed() then Verdict(true, UnemploymentBenefit)
    else if a.LargeFamily() then Verdict(true, LargeFamily)
    else if a.Orphan() then Verdict(true, Orphan)
    else if a.FamilyDisability() then Verdict(true, FamilyDisability)
    else if a.TerrorismVictimChild() && a.age.None? then RaisesTypeError
    else if a.TerrorismVictimChild() && a.age.value < AgeBound then Verdict(true, TerrorismVictimChild)
    else IncomeRule(a)
  }

  /** More children or more siblings at university never lower a limit. */
  lemma LimitsMonotone(children: int, children': int, siblings: int, siblings': int)
    requires children <= children' && siblings <= siblings'
    ensures SingleLimit(children, siblings) <= SingleLimit(children', siblings')
    ensures MarriedLimit(children) <= MarriedLimit(children')
  {
  }

  /** For the same household, a same-city applicant is never eligible by income where an other-city one is not. */
  lemma SameCityNeverHelps(a: Applicant)
    requires NoOverride(a) && a.Children() >= 0 && a.Siblings() >= 0
    requires a.SameCity()
    ensures var b := a.(permanentResidence := Some("different_city"));
            CheckEligibility(a).Verdict? && CheckEligibility(a).eligible ==>
              CheckEligibility(b).Verdict? && CheckEligibility(b).eligible
  {
  }

  const NoData: Applicant := Applicant(None, None, None, None, None, None, None, None, None, None, None, None)

  /** The thresholds at their boundaries: every limit is inclusive, and the same-city limit of 58000 is 52200. */
  lemma BoundaryExamples()
    ensures CheckEligibility(NoData.(maritalStatus := Some("single"), age := Some(26), annualIncome := Some(25000)))
         == Verdict(true, LowPersonalIncome)
    ensures CheckEligibility(NoData.(maritalStatus := Some("single"), age := Some(26), annualIncome := Some(25001)))
         == Verdict(false, HighPersonalIncome)
    ensures var young := NoData.(maritalStatus := Some("single"), age := Some(24), numberOfChildren := Some(3),
                                 siblingsInUniversity := Some(1), familyIncome := Some(58000));
            && CheckEligibility(young.(permanentResidence := Some("different_city"))) == Verdict(true, LowFamilyIncome)
            && CheckEligibility(young.(permanentResidence := Some("same_city"))) == Verdict(false, HighFamilyIncome)
            && CheckEligibility(young.(permanentResidence := Some("same_city"), familyIncome := Some(52200)))
               == Verdict(true, LowFamilyIncome)
    ensures CheckEligibility(NoData.(maritalStatus := Some("married"), age := Some(30), familyIncome := Some(45000)))
         == Verdict(true, LowFamilyIncome)
    ensures CheckEligibility(NoData.(maritalStatus := Some("married"), age := Some(30), familyIncome := Some(45001)))
         == Verdict(false, HighFamilyIncome)
    // a terrorism victim's child aged 26 is judged by income
    ensures CheckEligibility(NoData.(maritalStatus := Some("single"), age := Some(26), annualIncome := Some(40000),
                                     terrorismVictimChild := Some(true)))
         == Verdict(false, HighPersonalIncome)
  {
  }
}
