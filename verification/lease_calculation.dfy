/** The lease summary computed by the "Calculate Lease Values" action of the
    lease calculation page (src/pages/Module2.tsx, `calculateLease`): the
    present value of an escalating monthly rent stream (the lease liability),
    the right-of-use asset, an approximate total cost and straight-line
    monthly depreciation. Amounts are exact reals; the inputs arrive already
    parsed. */
module LeaseCalculation {
  import opened RealMath
  import opened Cents

  /** The five form fields after parsing. Both rates are annual percentages;
      the term is whatever whole number `parseInt` produced. */
  datatype LeaseInputs = LeaseInputs(
    rent: real,
    term: int,
    discountPercent: real,
    escalationPercent: real,
    directCosts: real)

  /** The four figures the calculation publishes. */
  datatype Summary = Summary(
    leaseLiability: real,
    rightOfUseAsset: real,
    totalCostOfLease: real,
    monthlyDepreciation: real)

  /** The inputs for which the page would show a non-finite figure: a zero
      term divides by zero in the depreciation, and a monthly discount factor
      of zero divides every present value by zero. */
  datatype LeaseError = ZeroTerm | ZeroDiscountFactor

  datatype Result<T> = Success(value: T) | Failure(error: LeaseError)

  /** An annual percentage as a fraction (`/ 100`). */
  function Fraction(percent: real): real {
    percent / 100.0
  }

  /** The monthly discount rate: the annual fraction divided by twelve, a flat
      division and not a compound conversion. */
  function MonthlyDiscount(p: LeaseInputs): real {
    Fraction(p.discountPercent) / 12.0
  }

  /** One plus the monthly discount rate: the factor a present value is
      divided by once per month. */
  function DiscountFactor(p: LeaseInputs): real {
    1.0 + MonthlyDiscount(p)
  }

  /** One plus the monthly escalation rate (also a flat division by twelve):
      the factor the rent grows by each month. */
  function GrowthFactor(p: LeaseInputs): real {
    1.0 + Fraction(p.escalationPercent) / 12.0
  }

  /** The number of times the present-value loop runs: `term` when positive,
      none otherwise. */
  function Periods(term: int): (n: nat)
    ensures term >= 0 ==> n == term
    ensures term <= 0 ==> n == 0
  {
    if term < 0 then 0 else term
  }

  /** The rent due in month i (i = 1, 2, ...): the first month's rent grown
      by i - 1 months of escalation. */
  function RentAt(rent: real, growth: real, i: nat): real
    requires i >= 1
  {
    rent * Pow(growth, i - 1)
  }

  /** The rent of month i discounted over i months. */
  function PresentValue(rent: real, growth: real, factor: real, i: nat): real
    requires i >= 1 && factor != 0.0
  {
    RentAt(rent, growth, i) / Pow(factor, i)
  }

  /** The lease liability over n months: the present values of months 1..n,
      added in month order as the loop adds them. */
  function Liability(rent: real, growth: real, factor: real, n: nat): real
    requires factor != 0.0
  {
    if n == 0 then 0.0
    else Liability(rent, growth, factor, n - 1) + PresentValue(rent, growth, factor, n)
  }

  /** No rent, no liability. */
  lemma {:induction false} LiabilityOfNoRent(growth: real, factor: real, n: nat)
    requires factor != 0.0
    ensures Liability(0.0, growth, factor, n) == 0.0
  {
    if n > 0 {
      LiabilityOfNoRent(growth, factor, n - 1);
    }
  }

  /** With a non-negative rent, rent growing (or flat, or falling but not
      changing sign) and a positive discount factor, every present value is
      non-negative and so is their sum. */
  lemma {:induction false} LiabilityNonNegative(rent: real, growth: real, factor: real, n: nat)
    requires rent >= 0.0 && growth >= 0.0 && factor > 0.0
    ensures Liability(rent, growth, factor, n) >= 0.0
  {
    if n > 0 {
      LiabilityNonNegative(rent, growth, factor, n - 1);
      PowNonNegative(growth, n - 1);
      PowPositive(factor, n);
      var a := rent * Pow(growth, n - 1);
      assert a >= 0.0;
      assert a / Pow(factor, n) >= 0.0;
    }
  }

  /** The sign of the computed liability and of its published, rounded
      figure: zero for no rent, and never negative for a non-negative rent
      under a positive discount factor f and a growth factor of at least -f. */
  lemma {:induction false} LiabilitySign(p: LeaseInputs)
    requires CalculateLease(p).Success?
    ensures p.rent == 0.0 ==> CalculateLease(p).value.leaseLiability == 0.0
    ensures p.rent >= 0.0 && DiscountFactor(p) > 0.0 && GrowthFactor(p) >= -DiscountFactor(p)
            ==> CalculateLease(p).value.leaseLiability >= 0.0
    ensures p.rent == 0.0 ==> Publish(CalculateLease(p).value).leaseLiability == 0.0
    ensures p.rent >= 0.0 && DiscountFactor(p) > 0.0 && GrowthFactor(p) >= -DiscountFactor(p)
            ==> Publish(CalculateLease(p).value).leaseLiability >= 0.0
  {
    var n := Periods(p.term);
    var factor := if n == 0 then 1.0 else DiscountFactor(p);
    var g := GrowthFactor(p);
    LiabilityOfNoRent(g, factor, n);
    if p.rent >= 0.0 && DiscountFactor(p) > 0.0 && g >= -DiscountFactor(p) && n > 0 {
      if g >= 0.0 {
        LiabilityNonNegative(p.rent, g, factor, n);
      } else {
        AlternatingLiabilityNonNegative(p.rent, g, factor, n);
      }
    }
  }

  /** A falling growth factor between -f and 0 makes the present values
      alternate in sign without growing in size, so a non-negative rent still
      gives a non-negative liability. */
  lemma {:induction false} AlternatingLiabilityNonNegative(rent: real, growth: real, factor: real, n: nat)
    requires rent >= 0.0 && factor > 0.0 && -factor <= growth < 0.0
    ensures Liability(rent, growth, factor, n) >= 0.0
  {
    DiscountedRentAtMost(rent, growth, factor, n);
    LiabilityClosedForm(rent, growth, factor, n);
    NonNegativeFactor(Liability(rent, growth, factor, n), factor - growth);
  }

  /** The last term of the closed form never exceeds the rent when the
      growth factor is no larger in size than the discount factor. */
  lemma {:induction false} DiscountedRentAtMost(rent: real, growth: real, factor: real, n: nat)
    requires rent >= 0.0 && factor > 0.0 && -factor <= growth <= factor
    ensures rent * Pow(growth, n) / Pow(factor, n) <= rent
  {
    PowBounded(growth, factor, n);
    PowPositive(factor, n);
    ScaledRatioAtMost(rent, Pow(growth, n), Pow(factor, n));
  }

  /** For rent >= 0 and a <= d with d positive, rent * a / d is at most
      rent. */
  lemma ScaledRatioAtMost(rent: real, a: real, d: real)
    requires rent >= 0.0 && d > 0.0 && a <= d
    ensures rent * a / d <= rent
  {
    var q := rent * a / d;
    assert q * d == rent * a;
    assert rent * d - rent * a == rent * (d - a);
    assert (rent - q) * d >= 0.0;
  }

  /** A value whose product with a positive number is non-negative is
      non-negative. */
  lemma NonNegativeFactor(l: real, c: real)
    requires c > 0.0 && l * c >= 0.0
    ensures l >= 0.0
  {
  }

  /** The total cost shown on the page: first-month rent times term times
      (1 + annual escalation * term / 24), a closed-form approximation. */
  function TotalCostOfLease(p: LeaseInputs): real {
    p.rent * p.term as real * (1.0 + Fraction(p.escalationPercent) * p.term as real / 24.0)
  }

  /** `calculateLease`: the summary, or the reason the page would show a
      non-finite figure. */
  function CalculateLease(p: LeaseInputs): (r: Result<Summary>)
    ensures r.Failure? <==> p.term == 0 || (p.term > 0 && DiscountFactor(p) == 0.0)
    ensures r.Failure? ==> (r.error == ZeroTerm <==> p.term == 0)
    ensures r.Success? && p.term >= 1
            ==> r.value.leaseLiability == Liability(p.rent, GrowthFactor(p), DiscountFactor(p), p.term)
    ensures r.Success? ==> r.value.rightOfUseAsset - r.value.leaseLiability == p.directCosts
    ensures r.Success? && p.directCosts >= 0.0 ==> r.value.rightOfUseAsset >= r.value.leaseLiability
    ensures r.Success? ==> r.value.monthlyDepreciation * p.term as real == r.value.rightOfUseAsset
    ensures r.Success? && p.term < 0 ==> r.value.leaseLiability == 0.0
    ensures r.Success? && p.escalationPercent == 0.0
            ==> r.value.totalCostOfLease == p.rent * p.term as real
  {
    if p.term == 0 then Failure(ZeroTerm)
    else if p.term > 0 && DiscountFactor(p) == 0.0 then Failure(ZeroDiscountFactor)
    else
      var n := Periods(p.term);
      // with no periods the factor is never used, whatever the rate
      var factor := if n == 0 then 1.0 else DiscountFactor(p);
      var liability := Liability(p.rent, GrowthFactor(p), factor, n);
      var rou := liability + p.directCosts;
      Success(Summary(liability, rou, TotalCostOfLease(p), rou / p.term as real))
  }

  /** The first month's present value, carried forward a month, is the
      first rent. */
  lemma PresentValueFirst(rent: real, growth: real, factor: real)
    requires factor != 0.0
    ensures PresentValue(rent, growth, factor, 1) * factor == rent
  {
    assert Pow(factor, 1) == factor;
    assert Pow(growth, 0) == 1.0;
  }

  /** Each later month's present value, carried forward a month, is the
      previous month's present value grown by one month of escalation. */
  lemma {:induction false} PresentValueStep(rent: real, growth: real, factor: real, i: nat)
    requires i >= 1 && factor != 0.0
    ensures PresentValue(rent, growth, factor, i + 1) * factor == growth * PresentValue(rent, growth, factor, i)
  {
    var a := rent * Pow(growth, i - 1);
    var d := Pow(factor, i);
    assert Pow(factor, i + 1) == factor * d;
    assert RentAt(rent, growth, i + 1) == growth * a;
    calc {
      PresentValue(rent, growth, factor, i + 1) * factor;
      (growth * a) / (factor * d) * factor;
      growth * (a / d);
    }
  }

  /** One month after commencement the liability of n + 1 months has accrued
      a month of interest and the first rent has been paid; what is left is
      the liability of the remaining n months, measured at a rent one
      escalation step higher. */
  lemma {:induction false} LiabilityUnwind(rent: real, growth: real, factor: real, n: nat)
    requires factor != 0.0
    ensures Liability(rent, growth, factor, n + 1) * factor - rent
            == growth * Liability(rent, growth, factor, n)
  {
    if n == 0 {
      PresentValueFirst(rent, growth, factor);
    } else {
      LiabilityUnwind(rent, growth, factor, n - 1);
      PresentValueStep(rent, growth, factor, n);
    }
  }

  /** The growing-annuity formula: the loop's sum times (factor - growth)
      telescopes to the first rent less the discounted rent of the month after
      the term. */
  lemma {:induction false} LiabilityClosedForm(rent: real, growth: real, factor: real, n: nat)
    requires factor != 0.0
    ensures Liability(rent, growth, factor, n) * (factor - growth)
            == rent - rent * Pow(growth, n) / Pow(factor, n)
  {
    if n >= 1 {
      LiabilityUnwindAt(rent, growth, factor, n);
      ScaleComm(rent, growth, Pow(growth, n - 1), Pow(growth, n));
      ClosedFormStep(Liability(rent, growth, factor, n), Liability(rent, growth, factor, n - 1),
                     PresentValue(rent, growth, factor, n), rent * Pow(growth, n - 1), Pow(factor, n),
                     rent * Pow(growth, n), rent, growth, factor);
    }
  }

  /** The unwinding step, indexed by the longer lease. */
  lemma {:induction false} LiabilityUnwindAt(rent: real, growth: real, factor: real, n: nat)
    requires factor != 0.0 && n >= 1
    ensures Liability(rent, growth, factor, n) * factor - rent
            == growth * Liability(rent, growth, factor, n - 1)
  {
    LiabilityUnwind(rent, growth, factor, n - 1);
  }

  /** The algebra of the closed form's inductive step, over plain reals: l
      and prev are the liabilities of n and n - 1 months, pv the present
      value of month n, a its nominal rent, d its discount divisor and last
      the rent of month n + 1. */
  lemma ClosedFormStep(l: real, prev: real, pv: real, a: real, d: real, last: real,
                                          rent: real, growth: real, factor: real)
    requires d != 0.0 && pv == a / d && last == growth * a
    requires l == prev + pv && l * factor - rent == growth * prev
    ensures l * (factor - growth) == rent - last / d
  {
    MulDiv(growth, a, d);
  }

  /** Moving a factor across a product: x * (y * z) is y * (x * z). */
  lemma ScaleComm(x: real, y: real, z: real, yz: real)
    requires yz == y * z
    ensures x * yz == y * (x * z)
  {
  }

  lemma MulDiv(x: real, a: real, d: real)
    requires d != 0.0
    ensures x * (a / d) == (x * a) / d
  {
    var q := a / d;
    assert q * d == a;
    assert (x * q) * d == x * a;
  }

  /** Without escalation the liability is the ordinary annuity present value
      rent * (1 - (1 + r)^-term) / r, stated without dividing by the monthly
      rate r so that it also holds at r = 0. */
  lemma {:induction false} AnnuityLiability(p: LeaseInputs)
    requires p.escalationPercent == 0.0 && p.term >= 1
    requires CalculateLease(p).Success?
    ensures CalculateLease(p).value.leaseLiability * MonthlyDiscount(p)
            == p.rent * (1.0 - 1.0 / Pow(DiscountFactor(p), p.term))
  {
    LiabilityClosedForm(p.rent, 1.0, DiscountFactor(p), p.term);
    PowOne(p.term);
  }

  /** Without escalation and with a non-negative rate, a month of interest
      on the computed liability never exceeds the (non-negative) rent. */
  lemma {:induction false} OpeningInterestAtMostRent(p: LeaseInputs)
    requires p.escalationPercent == 0.0 && MonthlyDiscount(p) >= 0.0
    requires p.rent >= 0.0 && p.term >= 1
    ensures CalculateLease(p).Success?
    ensures CalculateLease(p).value.leaseLiability * MonthlyDiscount(p) <= p.rent
  {
    AnnuityLiability(p);
    PowPositive(DiscountFactor(p), p.term);
    ShareOfRent(p.rent, 1.0 / Pow(DiscountFactor(p), p.term));
  }

  /** Keeping all but a positive share x of a non-negative rent keeps at
      most the rent. */
  lemma ShareOfRent(rent: real, x: real)
    requires rent >= 0.0 && x > 0.0
    ensures rent * (1.0 - x) <= rent
  {
    assert rent * (1.0 - x) == rent - rent * x;
    assert rent * x >= 0.0;
  }

  /** Below minus the discount factor the growth factor lets the alternating
      present values grow in size, and the liability then need not be
      non-negative even for a positive rent: two months at rent 1, no
      discount (factor 1) and growth factor -2 sum to -1. */
  lemma {:induction false} NegativeGrowthLiability()
    ensures Liability(1.0, -2.0, 1.0, 2) == -1.0
  {
    assert Pow(-2.0, 1) == -2.0;
    assert Pow(1.0, 2) == 1.0;
  }

  /** The sum of the rents actually due over n months, escalation included. */
  function NominalRentTotal(rent: real, growth: real, n: nat): (r: real)
    ensures growth == 1.0 ==> r == rent * n as real
  {
    if n == 0 then 0.0 else NominalRentTotal(rent, growth, n - 1) + RentAt(rent, growth, n)
  }

  /** The sum of the rents over n months if the rent grew linearly, by a
      fixed fraction m of the first rent each month. */
  function LinearRentTotal(rent: real, m: real, n: nat): real {
    if n == 0 then 0.0 else LinearRentTotal(rent, m, n - 1) + rent * (1.0 + m * (n - 1) as real)
  }

  /** The linear total in closed form: n rents plus m * n * (n - 1) / 2 rents
      of growth. */
  lemma {:induction false} LinearRentTotalClosedForm(rent: real, m: real, n: nat)
    ensures LinearRentTotal(rent, m, n) == rent * n as real * (1.0 + m * (n as real - 1.0) / 2.0)
  {
    if n > 0 {
      LinearRentTotalClosedForm(rent, m, n - 1);
    }
  }

  /** The page's total cost is not a sum of rents: it is the linear-growth
      total plus half a month's growth on every month, rent * term * annual
      escalation / 24 too much; without escalation it is the true total of the
      rents. */
  lemma {:induction false} TotalCostApproximation(p: LeaseInputs)
    requires p.term >= 0
    ensures TotalCostOfLease(p)
            == LinearRentTotal(p.rent, Fraction(p.escalationPercent) / 12.0, p.term)
               + p.rent * p.term as real * Fraction(p.escalationPercent) / 24.0
    ensures p.escalationPercent == 0.0
            ==> TotalCostOfLease(p) == NominalRentTotal(p.rent, GrowthFactor(p), p.term)
  {
    LinearRentTotalClosedForm(p.rent, Fraction(p.escalationPercent) / 12.0, p.term);
  }

  /** The present-value loop of `calculateLease` as the source writes it:
      for i = 1..term, recompute both powers and add the month's present
      value. */
  method PresentValueLoop(rent: real, growth: real, factor: real, term: int) returns (liability: real)
    requires factor != 0.0
    ensures liability == Liability(rent, growth, factor, Periods(term))
  {
    liability := 0.0;
    var i := 1;
    while i <= term
      invariant 1 <= i <= Periods(term) + 1
      invariant liability == Liability(rent, growth, factor, i - 1)
    {
      var monthlyRent := rent * Pow(growth, i - 1);
      var pv := monthlyRent / Pow(factor, i);
      liability := liability + pv;
      i := i + 1;
    }
  }

  /** `calculateLease` with its loop. */
  method CalculateLeaseLoop(p: LeaseInputs) returns (r: Result<Summary>)
    ensures r == CalculateLease(p)
  {
    if p.term == 0 {
      return Failure(ZeroTerm);
    }
    if p.term > 0 && DiscountFactor(p) == 0.0 {
      return Failure(ZeroDiscountFactor);
    }
    var factor := if p.term > 0 then DiscountFactor(p) else 1.0;
    var liability := PresentValueLoop(p.rent, GrowthFactor(p), factor, p.term);
    var rou := liability + p.directCosts;
    r := Success(Summary(liability, rou, TotalCostOfLease(p), rou / p.term as real));
  }

  /** The figures the page stores: each one passed through `toFixed(2)`, which
      is also what the amortization table reads back. */
  function Publish(s: Summary): (r: Summary)
    ensures IsCents(r.leaseLiability) && IsCents(r.rightOfUseAsset)
    ensures IsCents(r.totalCostOfLease) && IsCents(r.monthlyDepreciation)
    ensures Dist(r.leaseLiability, s.leaseLiability) <= 0.005
    ensures Dist(r.rightOfUseAsset, s.rightOfUseAsset) <= 0.005
    ensures Dist(r.totalCostOfLease, s.totalCostOfLease) <= 0.005
    ensures Dist(r.monthlyDepreciation, s.monthlyDepreciation) <= 0.005
  {
    Summary(RoundCents(s.leaseLiability), RoundCents(s.rightOfUseAsset),
            RoundCents(s.totalCostOfLease), RoundCents(s.monthlyDepreciation))
  }
}
