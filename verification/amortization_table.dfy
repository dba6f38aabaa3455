/** The amortization table of the lease calculation page
    (src/pages/Module2.tsx, `generateAmortizationTable`): at most twelve
    monthly rows, each paying the flat first-month rent against a running
    liability balance and writing off straight-line depreciation against a
    running asset balance. The running balances are carried forward
    unclamped; each row reports them clamped at zero. */
module AmortizationTable {
  import opened RealMath
  import opened Cents
  import opened LeaseCalculation

  /** The stored results: absent until the calculation has been run. */
  datatype Option<T> = None | Some(value: T)

  /** One row of the table, before display formatting. */
  datatype Row = Row(
    month: int,
    payment: real,
    interest: real,
    principal: real,
    remainingLiability: real,
    depreciation: real,
    remainingAsset: real)

  /** The table never shows more than this many months. */
  const MaxRows: nat := 12

  /** The number of rows: months 1..min(12, term), none for a term below 1. */
  function RowCount(term: int): (n: nat)
    ensures n <= MaxRows
    ensures term <= 0 ==> n == 0
    ensures 0 <= term <= MaxRows ==> n == term
    ensures term >= MaxRows ==> n == MaxRows
  {
    if term <= 0 then 0 else MinInt(MaxRows, term)
  }

  /** The unclamped liability balance after k rows: each row adds a month of
      interest on the balance and takes off the flat rent. */
  function RunningLiability(opening: real, rent: real, rate: real, k: nat): real {
    if k == 0 then opening
    else
      var before := RunningLiability(opening, rent, rate, k - 1);
      before - (rent - before * rate)
  }

  /** The unclamped asset balance after k rows. */
  function RunningAsset(opening: real, depreciation: real, k: nat): real {
    if k == 0 then opening else RunningAsset(opening, depreciation, k - 1) - depreciation
  }

  /** The row for a month, from the current inputs and the stored results. */
  function RowAt(p: LeaseInputs, s: Summary, month: nat): Row
    requires month >= 1
  {
    var rate := MonthlyDiscount(p);
    var interest := RunningLiability(s.leaseLiability, p.rent, rate, month - 1) * rate;
    var principal := p.rent - interest;
    Row(month, p.rent, interest, principal, Max0(RunningLiability(s.leaseLiability, p.rent, rate, month)),
        s.monthlyDepreciation, Max0(RunningAsset(s.rightOfUseAsset, s.monthlyDepreciation, month)))
  }

  /** `generateAmortizationTable`: empty before any calculation, otherwise
      the rows for months 1..min(12, term). The rent, term and rate are read
      from the current inputs; the opening balances and the depreciation from
      the stored results. */
  function GenerateAmortizationTable(p: LeaseInputs, results: Option<Summary>): (rows: seq<Row>)
    ensures results.None? ==> rows == []
    ensures results.Some? ==> |rows| == RowCount(p.term)
    ensures forall i | 0 <= i < |rows| ::
      && rows[i].month == i + 1
      && rows[i].payment == p.rent
      && rows[i].principal == rows[i].payment - rows[i].interest
      && rows[i].remainingLiability >= 0.0
      && rows[i].remainingAsset >= 0.0
    ensures results.Some? ==> forall i | 0 <= i < |rows| ::
      && rows[i].depreciation == results.value.monthlyDepreciation
  {
    match results
    case None => []
    case Some(s) => seq(RowCount(p.term), i requires 0 <= i => RowAt(p, s, i + 1))
  }

  /** The loop of `generateAmortizationTable`, carrying the two balances. */
  method GenerateAmortizationTableLoop(p: LeaseInputs, results: Option<Summary>) returns (rows: seq<Row>)
    ensures rows == GenerateAmortizationTable(p, results)
  {
    if results.None? {
      return [];
    }
    var s := results.value;
    var rent := p.rent;
    var rate := p.discountPercent / 100.0 / 12.0;
    var remainingLiability := s.leaseLiability;
    var remainingAsset := s.rightOfUseAsset;
    var depreciation := s.monthlyDepreciation;
    var last := MinInt(MaxRows, p.term);
    rows := [];
    var month := 1;
    while month <= last
      invariant 1 <= month <= RowCount(p.term) + 1
      invariant |rows| == month - 1
      invariant forall j | 0 <= j < |rows| :: rows[j] == RowAt(p, s, j + 1)
      invariant remainingLiability == RunningLiability(s.leaseLiability, rent, rate, month - 1)
      invariant remainingAsset == RunningAsset(s.rightOfUseAsset, depreciation, month - 1)
    {
      var interest := remainingLiability * rate;
      var principal := rent - interest;
      remainingLiability := remainingLiability - principal;
      remainingAsset := remainingAsset - depreciation;
      var row := Row(month, rent, interest, principal, Max0(remainingLiability),
                     depreciation, Max0(remainingAsset));
      assert remainingLiability == RunningLiability(s.leaseLiability, rent, rate, month);
      assert remainingAsset == RunningAsset(s.rightOfUseAsset, depreciation, month);
      assert row == RowAt(p, s, month);
      rows := rows + [row];
      month := month + 1;
    }
  }

  /** The row as displayed: every amount through `toFixed(2)`. */
  function Display(row: Row): (r: Row)
    ensures r.month == row.month
    ensures IsCents(r.payment) && IsCents(r.interest) && IsCents(r.principal)
    ensures IsCents(r.remainingLiability) && IsCents(r.depreciation) && IsCents(r.remainingAsset)
    ensures Dist(r.payment, row.payment) <= 0.005 && Dist(r.interest, row.interest) <= 0.005
    ensures Dist(r.principal, row.principal) <= 0.005
    ensures Dist(r.depreciation, row.depreciation) <= 0.005
    ensures Dist(r.remainingLiability, row.remainingLiability) <= 0.005
    ensures Dist(r.remainingAsset, row.remainingAsset) <= 0.005
    ensures row.remainingLiability >= 0.0 ==> r.remainingLiability >= 0.0
    ensures row.remainingAsset >= 0.0 ==> r.remainingAsset >= 0.0
  {
    Row(row.month, RoundCents(row.payment), RoundCents(row.interest), RoundCents(row.principal),
        RoundCents(row.remainingLiability), RoundCents(row.depreciation), RoundCents(row.remainingAsset))
  }

  /** The asset balance falls by the same depreciation every month. */
  lemma {:induction false} RunningAssetStraightLine(opening: real, depreciation: real, k: nat)
    ensures RunningAsset(opening, depreciation, k) == opening - k as real * depreciation
  {
    if k > 0 {
      RunningAssetStraightLine(opening, depreciation, k - 1);
    }
  }

  /** A change in the opening liability is compounded by the monthly factor
      each row and does not otherwise affect the balance. */
  lemma {:induction false} RunningLiabilityShift(opening: real, delta: real, rent: real, rate: real, k: nat)
    ensures RunningLiability(opening + delta, rent, rate, k)
            == RunningLiability(opening, rent, rate, k) + delta * Pow(1.0 + rate, k)
  {
    if k > 0 {
      RunningLiabilityShift(opening, delta, rent, rate, k - 1);
      ShiftStep(RunningLiability(opening, rent, rate, k - 1),
                RunningLiability(opening + delta, rent, rate, k - 1),
                delta * Pow(1.0 + rate, k - 1), rent, rate);
      ScaleStep(delta, Pow(1.0 + rate, k - 1), 1.0 + rate, rate);
    }
  }

  /** One row applied to two balances keeps their difference, grown by one
      month of interest. */
  lemma ShiftStep(b: real, shifted: real, e: real, rent: real, rate: real)
    requires shifted == b + e
    ensures shifted - (rent - shifted * rate) == b - (rent - b * rate) + (e + e * rate)
  {
    assert shifted * rate == b * rate + e * rate;
  }

  /** A difference grown by one month of interest is the difference scaled
      by the next power of the monthly factor. */
  lemma ScaleStep(delta: real, f: real, x: real, rate: real)
    requires x == 1.0 + rate
    ensures delta * f + delta * f * rate == delta * (x * f)
  {
  }

  /** Without escalation, a schedule opened at the exact liability of an
      n-month lease is, after k <= n rows, at the exact liability of the
      remaining n - k months: the flat payments amortize it. */
  lemma {:induction false} ExactScheduleAmortizes(rent: real, rate: real, n: nat, k: nat)
    requires 1.0 + rate != 0.0 && k <= n
    ensures RunningLiability(Liability(rent, 1.0, 1.0 + rate, n), rent, rate, k)
            == Liability(rent, 1.0, 1.0 + rate, n - k)
  {
    if k > 0 {
      ExactScheduleAmortizes(rent, rate, n, k - 1);
      AmortizeRow(rent, rate, Liability(rent, 1.0, 1.0 + rate, n), k, n - k);
    }
  }

  /** The inductive step: a schedule that has reached the exact liability of
      m + 1 months reaches that of m months one row later. */
  lemma {:induction false} AmortizeRow(rent: real, rate: real, opening: real, k: nat, m: nat)
    requires 1.0 + rate != 0.0 && k >= 1
    requires RunningLiability(opening, rent, rate, k - 1) == Liability(rent, 1.0, 1.0 + rate, m + 1)
    ensures RunningLiability(opening, rent, rate, k) == Liability(rent, 1.0, 1.0 + rate, m)
  {
    AmortizeStep(rent, rate, m);
  }

  /** One flat-rent row takes the exact liability of m + 1 months to that of
      m months. */
  lemma {:induction false} AmortizeStep(rent: real, rate: real, m: nat)
    requires 1.0 + rate != 0.0
    ensures var before := Liability(rent, 1.0, 1.0 + rate, m + 1);
            before - (rent - before * rate) == Liability(rent, 1.0, 1.0 + rate, m)
  {
    var g, f := 1.0, 1.0 + rate;
    var before, after := Liability(rent, g, f, m + 1), Liability(rent, g, f, m);
    LiabilityUnwind(rent, g, f, m);
    assert g * after == after;
    RowStep(before, rent, rate, f, after);
  }

  /** One row's update of the balance is a month of interest less the rent. */
  lemma RowStep(before: real, rent: real, rate: real, factor: real, after: real)
    requires factor == 1.0 + rate && before * factor - rent == after
    ensures before - (rent - before * rate) == after
  {
  }

  /** While the interest on the balance does not exceed the rent, each row
      pays principal and the balance does not grow. */
  lemma {:induction false} PrincipalNonNegative(opening: real, rent: real, rate: real, k: nat)
    requires rate >= 0.0 && opening * rate <= rent
    ensures RunningLiability(opening, rent, rate, k) * rate <= rent
    ensures RunningLiability(opening, rent, rate, k + 1) <= RunningLiability(opening, rent, rate, k)
  {
    if k > 0 {
      PrincipalNonNegative(opening, rent, rate, k - 1);
      var b := RunningLiability(opening, rent, rate, k - 1);
      var c := RunningLiability(opening, rent, rate, k);
      assert c <= b;
      assert c * rate <= b * rate;
    }
  }

  /** With non-negative depreciation the reported asset never rises from one
      row to the next. */
  lemma {:induction false} ReportedAssetNonIncreasing(p: LeaseInputs, s: Summary, i: nat)
    requires s.monthlyDepreciation >= 0.0
    requires i + 1 < RowCount(p.term)
    ensures GenerateAmortizationTable(p, Some(s))[i + 1].remainingAsset
            <= GenerateAmortizationTable(p, Some(s))[i].remainingAsset
  {
    var d := s.monthlyDepreciation;
    var a := RunningAsset(s.rightOfUseAsset, d, i + 1);
    assert RunningAsset(s.rightOfUseAsset, d, i + 2) == a - d;
    Max0Monotone(a - d, a);
  }

  /** With a non-negative rate and opening interest no larger than the rent,
      the reported liability never rises from one row to the next. */
  lemma {:induction false} ReportedLiabilityNonIncreasing(p: LeaseInputs, s: Summary, i: nat)
    requires MonthlyDiscount(p) >= 0.0 && s.leaseLiability * MonthlyDiscount(p) <= p.rent
    requires i + 1 < RowCount(p.term)
    ensures GenerateAmortizationTable(p, Some(s))[i + 1].remainingLiability
            <= GenerateAmortizationTable(p, Some(s))[i].remainingLiability
  {
    var rate := MonthlyDiscount(p);
    PrincipalNonNegative(s.leaseLiability, p.rent, rate, i + 1);
    TableRowFollowsBalances(p, s, i + 1);
    TableRowFollowsBalances(p, s, i + 2);
    Max0Monotone(RunningLiability(s.leaseLiability, p.rent, rate, i + 2),
                 RunningLiability(s.leaseLiability, p.rent, rate, i + 1));
  }

  /** For a lease without escalation at a non-negative rate and rent, the
      table opened at the computed summary reports a liability that never
      increases from row to row. */
  lemma {:induction false} CalculatedLiabilityNonIncreasing(p: LeaseInputs, i: nat)
    requires p.escalationPercent == 0.0 && MonthlyDiscount(p) >= 0.0 && p.rent >= 0.0
    requires i + 1 < RowCount(p.term)
    ensures CalculateLease(p).Success?
    ensures var rows := GenerateAmortizationTable(p, Some(CalculateLease(p).value));
            rows[i + 1].remainingLiability <= rows[i].remainingLiability
  {
    OpeningInterestAtMostRent(p);
    ReportedLiabilityNonIncreasing(p, CalculateLease(p).value, i);
  }

  /** Row `month` of the table charges interest on the running liability
      before the month, pays off the rest of the rent as principal, takes the
      principal off the running liability, and reports the running balances
      after the month clamped at zero. */
  lemma {:induction false} TableRowFollowsBalances(p: LeaseInputs, s: Summary, month: nat)
    requires 1 <= month <= RowCount(p.term)
    ensures var row := GenerateAmortizationTable(p, Some(s))[month - 1];
            var rate := MonthlyDiscount(p);
            && row.interest == RunningLiability(s.leaseLiability, p.rent, rate, month - 1) * rate
            && RunningLiability(s.leaseLiability, p.rent, rate, month)
               == RunningLiability(s.leaseLiability, p.rent, rate, month - 1) - row.principal
            && row.remainingLiability == Max0(RunningLiability(s.leaseLiability, p.rent, rate, month))
            && RunningAsset(s.rightOfUseAsset, s.monthlyDepreciation, month)
               == RunningAsset(s.rightOfUseAsset, s.monthlyDepreciation, month - 1) - row.depreciation
            && row.remainingAsset == Max0(RunningAsset(s.rightOfUseAsset, s.monthlyDepreciation, month))
  {
    TableRow(p, s, month);
  }

  lemma {:induction false} TableRow(p: LeaseInputs, s: Summary, month: nat)
    requires 1 <= month <= RowCount(p.term)
    ensures GenerateAmortizationTable(p, Some(s))[month - 1] == RowAt(p, s, month)
  {
  }

  /** Rounding the opening liability to cents, as the page does, moves every
      later unclamped balance by at most half a cent compounded monthly. */
  lemma {:induction false} RoundedOpeningDrift(opening: real, rent: real, rate: real, k: nat)
    requires 1.0 + rate > 0.0
    ensures Dist(RunningLiability(RoundCents(opening), rent, rate, k),
                 RunningLiability(opening, rent, rate, k))
            <= 0.005 * Pow(1.0 + rate, k)
  {
    OpeningDrift(opening, RoundCents(opening), rent, rate, k);
  }

  /** Reading the asset and the depreciation back at cents, as the page
      does, moves the asset balance after k rows by at most half a cent plus
      half a cent per row. */
  lemma {:induction false} RoundedAssetDrift(opening: real, depreciation: real, k: nat)
    ensures Dist(RunningAsset(RoundCents(opening), RoundCents(depreciation), k),
                 RunningAsset(opening, depreciation, k))
            <= 0.005 + k as real * 0.005
  {
    if k > 0 {
      RoundedAssetDrift(opening, depreciation, k - 1);
    }
  }

  /** An opening balance off by at most half a cent leaves every later
      balance off by at most half a cent compounded monthly. */
  lemma {:induction false} OpeningDrift(opening: real, rounded: real, rent: real, rate: real, k: nat)
    requires 1.0 + rate > 0.0 && Dist(rounded, opening) <= 0.005
    ensures Dist(RunningLiability(rounded, rent, rate, k), RunningLiability(opening, rent, rate, k))
            <= 0.005 * Pow(1.0 + rate, k)
  {
    var delta := rounded - opening;
    RunningLiabilityShift(opening, delta, rent, rate, k);
    PowPositive(1.0 + rate, k);
    ScaledDist(RunningLiability(rounded, rent, rate, k),
               RunningLiability(opening, rent, rate, k), delta, Pow(1.0 + rate, k));
  }

  /** Two values that differ by a scaled amount of at most half a cent are
      at most half a cent times the scale apart. */
  lemma ScaledDist(x: real, y: real, delta: real, f: real)
    requires x == y + delta * f && -0.005 <= delta <= 0.005 && f > 0.0
    ensures Dist(x, y) <= 0.005 * f
  {
    BoundedProduct(delta, f, 0.005);
  }

  lemma BoundedProduct(x: real, f: real, bound: real)
    requires -bound <= x <= bound && f >= 0.0
    ensures -bound * f <= x * f <= bound * f
  {
    assert (bound - x) * f >= 0.0;
    assert (x + bound) * f >= 0.0;
  }

  /** For a lease of at most twelve months without escalation, the table
      opened at the exact (unrounded) summary ends with both balances at
      zero. */
  lemma {:induction false} ExactTableClosesLease(p: LeaseInputs)
    requires 1 <= p.term <= MaxRows && p.escalationPercent == 0.0
    requires DiscountFactor(p) != 0.0
    ensures CalculateLease(p).Success?
    ensures var rows := GenerateAmortizationTable(p, Some(CalculateLease(p).value));
            && |rows| == p.term
            && rows[p.term - 1].remainingLiability == 0.0
            && rows[p.term - 1].remainingAsset == 0.0
  {
    var s := CalculateLease(p).value;
    var rate := MonthlyDiscount(p);
    ExactScheduleAmortizes(p.rent, rate, p.term, p.term);
    RunningAssetStraightLine(s.rightOfUseAsset, s.monthlyDepreciation, p.term);
    var rows := GenerateAmortizationTable(p, Some(s));
    assert rows[p.term - 1] == RowAt(p, s, p.term);
  }

  /** A one-month lease gives exactly one row, and opened at the exact
      summary that row closes both balances, whatever the escalation. */
  lemma {:induction false} SingleMonthLease(p: LeaseInputs)
    requires p.term == 1 && DiscountFactor(p) != 0.0
    ensures CalculateLease(p).Success?
    ensures var rows := GenerateAmortizationTable(p, Some(CalculateLease(p).value));
            && |rows| == 1
            && rows[0].remainingLiability == 0.0
            && rows[0].remainingAsset == 0.0
  {
    var s := CalculateLease(p).value;
    LiabilityUnwind(p.rent, GrowthFactor(p), DiscountFactor(p), 0);
    RunningAssetStraightLine(s.rightOfUseAsset, s.monthlyDepreciation, 1);
    var rows := GenerateAmortizationTable(p, Some(s));
    assert rows[0] == RowAt(p, s, 1);
  }

  /** The table pays the flat first-month rent while the liability was
      measured on escalating rents, so with steep escalation the interest
      exceeds the payment and the balance grows: rent 1, two months, 1200%
      discount and 12000% escalation give a liability of 3.25 that the table
      carries to 5.5 and then 10. */
  lemma {:induction false} FlatPaymentsCanGrowLiability()
    ensures var p := LeaseInputs(1.0, 2, 1200.0, 12000.0, 0.0);
            && CalculateLease(p).Success?
            && CalculateLease(p).value.leaseLiability == 3.25
            && var rows := GenerateAmortizationTable(p, Some(CalculateLease(p).value));
               && |rows| == 2
               && rows[0].principal < 0.0
               && rows[0].remainingLiability == 5.5
               && rows[1].remainingLiability == 10.0
  {
    var p := LeaseInputs(1.0, 2, 1200.0, 12000.0, 0.0);
    assert DiscountFactor(p) == 2.0 && GrowthFactor(p) == 11.0;
    assert Pow(2.0, 1) == 2.0 && Pow(2.0, 2) == 4.0 && Pow(11.0, 1) == 11.0;
    assert Liability(1.0, 11.0, 2.0, 2) == 3.25;
    var s := CalculateLease(p).value;
    var rows := GenerateAmortizationTable(p, Some(s));
    assert rows[0] == RowAt(p, s, 1);
    assert rows[1] == RowAt(p, s, 2);
  }
}
