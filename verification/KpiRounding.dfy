/**
  The resource KPIs of frontend/src/core/compute.ts over exact reals: percentages rounded to
  one decimal, halves to the even digit, with a band of 1e-9 around the half that counts as
  the half.
*/
module KpiRounding {
  const EPSILON: real := 0.000000001

  /** One rounding error: half a tenth, plus the band. */
  const ERROR: real := 0.05 + EPSILON / 10.0

  predicate Near(a: real, b: real, error: real) {
    -error <= a - b <= error
  }

  /** The body of round1 for a magnitude already scaled by ten. */
  function Tenths(scaled: real): int
    requires scaled >= 0.0
  {
    var floor := scaled.Floor;
    var diff := scaled - floor as real;
    if diff > 0.5 + EPSILON then floor + 1
    else if diff < 0.5 - EPSILON then floor
    else if floor % 2 == 0 then floor
    else floor + 1
  }

  function Round1(value: real): real {
    if value >= 0.0 then Tenths(value * 10.0) as real / 10.0 else -(Tenths(-value * 10.0) as real) / 10.0
  }

  function OuPct(prd: real, sby: real, udt: real, sdt: real, egt: real): real {
    var denominator := prd + sby + udt + sdt + egt;
    if denominator <= 0.0 then 0.0 else Round1(prd / denominator * 100.0)
  }

  function AvailabilityPct(prd: real, sby: real, udt: real, sdt: real, egt: real, nst: real): real {
    var numerator := prd + sby + egt;
    var denominator := numerator + sdt + udt + nst;
    if denominator <= 0.0 then 0.0 else Round1(numerator / denominator * 100.0)
  }

  function StatusPct(value: real, total: real): real {
    if total <= 0.0 then 0.0 else Round1(value / total * 100.0)
  }

  function YieldPct(trackout: real, ng: real): real {
    var denominator := trackout + ng;
    if denominator <= 0.0 then 0.0 else Round1(trackout / denominator * 100.0)
  }

  function OeePct(availability: real, yieldPct: real): real {
    Round1(availability * yieldPct / 100.0)
  }

  datatype Hours = Hours(prd: real, sby: real, udt: real, sdt: real, egt: real, nst: real, trackout: real, ng: real) {
    predicate NonNegative() {
      prd >= 0.0 && sby >= 0.0 && udt >= 0.0 && sdt >= 0.0 && egt >= 0.0 && nst >= 0.0 && trackout >= 0.0 && ng >= 0.0
    }

    function Total(): real {
      prd + sby + udt + sdt + egt + nst
    }
  }

  datatype Kpi = Kpi(
    ou: real, availability: real, oee: real, yieldPct: real,
    prd: real, sby: real, udt: real, sdt: real, egt: real, nst: real)

  function BuildKpi(h: Hours): Kpi {
    var total := h.Total();
    var availability := AvailabilityPct(h.prd, h.sby, h.udt, h.sdt, h.egt, h.nst);
    var yieldPct := YieldPct(h.trackout, h.ng);
    Kpi(OuPct(h.prd, h.sby, h.udt, h.sdt, h.egt), availability, OeePct(availability, yieldPct), yieldPct,
        StatusPct(h.prd, total), StatusPct(h.sby, total), StatusPct(h.udt, total),
        StatusPct(h.sdt, total), StatusPct(h.egt, total), StatusPct(h.nst, total))
  }

  // ---------------------------------------------------------------------------
  // Rounding
  // ---------------------------------------------------------------------------

  lemma {:induction false} TenthsMonotone(a: real, b: real)
    requires 0.0 <= a <= b
    ensures Tenths(a) <= Tenths(b)
  {
    if a.Floor != b.Floor {
      assert a.Floor + 1 <= b.Floor;
    }
  }

  lemma {:induction false} RoundMonotone(x: real, y: real)
    requires x <= y
    ensures Round1(x) <= Round1(y)
  {
    if x >= 0.0 {
      TenthsMonotone(x * 10.0, y * 10.0);
    } else if y < 0.0 {
      TenthsMonotone(-y * 10.0, -x * 10.0);
    }
  }

  lemma {:induction false} RoundOdd(x: real)
    ensures Round1(-x) == -Round1(x)
  {
    if x == 0.0 {
      assert Tenths(0.0) == 0;
    }
  }

  /** A tenth rounds to itself, so rounding twice is rounding once. */
  lemma {:induction false} TenthIsFixed(n: int)
    ensures Round1(n as real / 10.0) == n as real / 10.0
  {
    var m := if n >= 0 then n else -n;
    assert m as real / 10.0 * 10.0 == m as real;
    assert (m as real).Floor == m;
    assert Tenths(m as real) == m;
  }

  lemma {:induction false} RoundIdempotent(x: real)
    ensures Round1(Round1(x)) == Round1(x)
  {
    if x >= 0.0 {
      TenthIsFixed(Tenths(x * 10.0));
    } else {
      TenthIsFixed(-Tenths(-x * 10.0));
    }
  }

  lemma {:induction false} RoundNear(x: real)
    ensures Near(Round1(x), x, 0.0500000001) && ERROR == 0.0500000001
  {
  }

  /** Away from the half the result is the one nearest tenth; within the band its last digit is even. */
  lemma {:induction false} RoundToNearestOrEven(x: real, n: int)
    requires x >= 0.0
    ensures Tenths(x * 10.0) as real / 10.0 == Round1(x)
    ensures n as real - 0.499999999 < x * 10.0 < n as real + 0.499999999 ==> Tenths(x * 10.0) == n
    ensures -0.000000001 <= x * 10.0 - (n as real + 0.5) <= 0.000000001 && n >= 0 ==>
              Tenths(x * 10.0) % 2 == 0 && n <= Tenths(x * 10.0) <= n + 1
  {
    var scaled := x * 10.0;
    if n as real <= scaled < n as real + 1.0 {
      assert scaled.Floor == n;
    } else if n as real - 1.0 <= scaled < n as real {
      assert scaled.Floor == n - 1;
    }
  }

  // ---------------------------------------------------------------------------
  // Percentages
  // ---------------------------------------------------------------------------

  lemma {:induction false} ShareBack(value: real, total: real)
    requires total > 0.0
    ensures value / total * 100.0 * total == value * 100.0
  {
  }

  lemma {:induction false} Scales(a: real, b: real, t: real)
    requires a < b && t > 0.0
    ensures a * t < b * t
  {
  }

  lemma {:induction false} Cancels(a: real, b: real, t: real)
    requires t > 0.0 && a * t <= b * t
    ensures a <= b
  {
    if b < a {
      Scales(b, a, t);
    }
  }

  lemma {:induction false} ShareInRange(value: real, total: real)
    requires 0.0 <= value <= total && total > 0.0
    ensures 0.0 <= value / total * 100.0 <= 100.0
  {
    ShareBack(value, total);
    Cancels(0.0, value / total * 100.0, total);
    Cancels(value / total * 100.0, 100.0, total);
  }

  /** s is the share of `less` in the wide total, m the share of `more` in the narrow one. */
  lemma {:induction false} SharesCompare(less: real, more: real, wide: real, narrow: real, s: real, m: real)
    requires 0.0 <= less <= more && 0.0 < narrow <= wide
    requires s * wide == less * 100.0 && m * narrow == more * 100.0
    ensures s <= m
  {
    Cancels(0.0, s, wide);
    assert s * narrow <= s * wide;
    Cancels(s, m, narrow);
  }

  lemma {:induction false} RoundInRange(x: real)
    requires 0.0 <= x <= 100.0
    ensures 0.0 <= Round1(x) <= 100.0
  {
    RoundMonotone(0.0, x);
    RoundMonotone(x, 100.0);
    TenthIsFixed(0);
    TenthIsFixed(1000);
  }

  lemma {:induction false} StatusInRange(value: real, total: real)
    requires 0.0 <= value <= total
    ensures 0.0 <= StatusPct(value, total) <= 100.0
  {
    if total > 0.0 {
      ShareInRange(value, total);
      RoundInRange(value / total * 100.0);
    }
  }

  lemma {:induction false} ProductBelow(a: real, y: real, product: real)
    requires 0.0 <= a && 0.0 <= y <= 100.0 && product * 100.0 == a * y
    ensures 0.0 <= product <= a
  {
    assert 0.0 <= a * y;
    assert a * y <= a * 100.0;
  }

  lemma {:induction false} StatusIsRounded(value: real, total: real)
    ensures Round1(StatusPct(value, total)) == StatusPct(value, total)
  {
    if total > 0.0 {
      RoundIdempotent(value / total * 100.0);
    } else {
      TenthIsFixed(0);
    }
  }

  lemma {:induction false} OeeBelow(a: real, y: real, product: real)
    requires 0.0 <= a <= 100.0 && 0.0 <= y <= 100.0 && Round1(a) == a && Round1(y) == y
    requires product * 100.0 == a * y
    ensures 0.0 <= Round1(product) <= a && Round1(product) <= y
  {
    ProductBelow(a, y, product);
    ProductBelow(y, a, product);
    RoundMonotone(product, a);
    RoundMonotone(product, y);
    RoundMonotone(0.0, product);
    TenthIsFixed(0);
  }

  lemma {:induction false} OeeOfRounded(a: real, y: real)
    requires 0.0 <= a <= 100.0 && 0.0 <= y <= 100.0 && Round1(a) == a && Round1(y) == y
    ensures 0.0 <= OeePct(a, y) <= a && OeePct(a, y) <= y
  {
    var product := OeeProduct(a, y);
    OeeBelow(a, y, product);
  }

  lemma {:induction false} OeeProduct(a: real, y: real) returns (product: real)
    ensures product * 100.0 == a * y && OeePct(a, y) == Round1(product)
  {
    product := a * y / 100.0;
  }

  lemma {:induction false} FactorsAreRounded(h: Hours) returns (k: Kpi)
    requires h.NonNegative()
    ensures k == BuildKpi(h)
    ensures 0.0 <= k.availability <= 100.0 && Round1(k.availability) == k.availability
    ensures 0.0 <= k.yieldPct <= 100.0 && Round1(k.yieldPct) == k.yieldPct
    ensures k.oee == OeePct(k.availability, k.yieldPct)
  {
    k := BuildKpi(h);
    var up := h.prd + h.sby + h.egt;
    StatusInRange(up, up + h.sdt + h.udt + h.nst);
    StatusIsRounded(up, up + h.sdt + h.udt + h.nst);
    StatusInRange(h.trackout, h.trackout + h.ng);
    StatusIsRounded(h.trackout, h.trackout + h.ng);
  }

  /** OEE never exceeds the availability or the yield it is the product of, although all three are rounded. */
  lemma {:induction false} OeeBelowBoth(h: Hours)
    requires h.NonNegative()
    ensures var k := BuildKpi(h); 0.0 <= k.oee <= k.availability && k.oee <= k.yieldPct
  {
    var k := FactorsAreRounded(h);
    OeeOfRounded(k.availability, k.yieldPct);
  }

  /** With nonnegative hours and quantities every percentage lies between 0 and 100. */
  lemma {:induction false} AllInRange(h: Hours)
    requires h.NonNegative()
    ensures var k := BuildKpi(h);
            && 0.0 <= k.ou <= 100.0 && 0.0 <= k.availability <= 100.0
            && 0.0 <= k.yieldPct <= 100.0 && 0.0 <= k.oee <= 100.0
            && 0.0 <= k.prd <= 100.0 && 0.0 <= k.sby <= 100.0 && 0.0 <= k.udt <= 100.0
            && 0.0 <= k.sdt <= 100.0 && 0.0 <= k.egt <= 100.0 && 0.0 <= k.nst <= 100.0
  {
    var total := h.Total();
    var k := FactorsAreRounded(h);
    StatusInRange(h.prd, total);
    StatusInRange(h.sby, total);
    StatusInRange(h.udt, total);
    StatusInRange(h.sdt, total);
    StatusInRange(h.egt, total);
    StatusInRange(h.nst, total);
    StatusInRange(h.prd, h.prd + h.sby + h.udt + h.sdt + h.egt);
    OeeBelowBoth(h);
  }

  lemma {:induction false} StatusGrows(less: real, more: real, wide: real, narrow: real)
    requires 0.0 <= less <= more && 0.0 <= narrow <= wide && less <= narrow
    ensures StatusPct(less, wide) <= StatusPct(more, narrow)
  {
    if narrow > 0.0 {
      ShareBack(less, wide);
      ShareBack(more, narrow);
      SharesCompare(less, more, wide, narrow, less / wide * 100.0, more / narrow * 100.0);
      RoundMonotone(less / wide * 100.0, more / narrow * 100.0);
    } else if wide > 0.0 {
      assert less / wide * 100.0 == 0.0;
      TenthIsFixed(0);
    }
  }

  /** Every status percentage is one rounding error away from the exact share it stands for. */
  lemma {:induction false} EachNearItsShare(h: Hours)
    requires h.Total() > 0.0
    ensures var k, total := BuildKpi(h), h.Total();
            && Near(k.prd, h.prd / total * 100.0, ERROR) && Near(k.sby, h.sby / total * 100.0, ERROR)
            && Near(k.udt, h.udt / total * 100.0, ERROR) && Near(k.sdt, h.sdt / total * 100.0, ERROR)
            && Near(k.egt, h.egt / total * 100.0, ERROR) && Near(k.nst, h.nst / total * 100.0, ERROR)
  {
    var total := h.Total();
    StatusNearShare(h.prd, total);
    StatusNearShare(h.sby, total);
    StatusNearShare(h.udt, total);
    StatusNearShare(h.sdt, total);
    StatusNearShare(h.egt, total);
    StatusNearShare(h.nst, total);
  }

  /** Without hours, without scheduled hours or without output the percentages on that base are zero. */
  lemma {:induction false} NothingMeansZero(h: Hours)
    ensures var k := BuildKpi(h);
            && (h.prd + h.sby + h.udt + h.sdt + h.egt + h.nst <= 0.0 ==>
                  k.availability == k.prd == k.sby == k.udt == k.sdt == k.egt == k.nst == k.oee == 0.0)
            && (h.prd + h.sby + h.udt + h.sdt + h.egt <= 0.0 ==> k.ou == 0.0)
            && (h.trackout + h.ng <= 0.0 ==> k.yieldPct == 0.0 && k.oee == 0.0)
  {
    TenthIsFixed(0);
    var k := BuildKpi(h);
    assert h.prd + h.sby + h.egt + h.sdt + h.udt + h.nst == h.Total();
    assert OeePct(0.0, k.yieldPct) == Round1(0.0) && OeePct(k.availability, 0.0) == Round1(0.0);
  }

  /** So is OU, on the scheduled hours. */
  lemma {:induction false} OuNearItsShare(h: Hours, scheduled: real)
    requires scheduled == h.prd + h.sby + h.udt + h.sdt + h.egt && scheduled > 0.0
    ensures Near(BuildKpi(h).ou, h.prd / scheduled * 100.0, ERROR)
  {
    RoundNear(h.prd / scheduled * 100.0);
  }

  lemma {:induction false} ProductBelowError(x: real, y: real, error: real)
    requires x <= error && error >= 0.0 && 0.0 <= y <= 100.0
    ensures x * y <= error * 100.0
  {
    assert (error - x) * y >= 0.0;
    assert error * (100.0 - y) >= 0.0;
  }

  lemma {:induction false} ProductWithin(x: real, y: real, error: real)
    requires Near(x, 0.0, error) && 0.0 <= y <= 100.0
    ensures Near(x * y, 0.0, error * 100.0)
  {
    ProductBelowError(x, y, error);
    ProductBelowError(-x, y, error);
    assert -x * y == -(x * y);
  }

  lemma {:induction false} ProductNear(a: real, y: real, a': real, y': real, error: real)
    requires 0.0 <= a <= 100.0 && 0.0 <= y' <= 100.0 && Near(a', a, error) && Near(y', y, error)
    ensures Near(a' * y', a * y, error * 200.0)
  {
    ProductWithin(a' - a, y', error);
    ProductWithin(y' - y, a, error);
    assert a' * y' - a * y == (a' - a) * y' + (y' - y) * a;
  }

  lemma {:induction false} OeeNear(a: real, y: real, a': real, y': real)
    requires 0.0 <= a <= 100.0 && 0.0 <= y' <= 100.0 && Near(a', a, ERROR) && Near(y', y, ERROR)
    ensures Near(OeePct(a', y') * 100.0, a * y, ERROR * 300.0)
  {
    ProductNear(a, y, a', y', ERROR);
    var product := OeeProduct(a', y');
    RoundNear(product);
  }

  lemma {:induction false} SameShare(value: real, total: real, share: real)
    requires total > 0.0 && share * total == value * 100.0
    ensures share == value / total * 100.0
  {
    var quotient := value / total * 100.0;
    ShareBack(value, total);
    Cancels(share, quotient, total);
    Cancels(quotient, share, total);
  }

  lemma {:induction false} NearItsShare(value: real, total: real, share: real)
    requires total > 0.0 && 0.0 <= value <= total && share * total == value * 100.0
    ensures Near(StatusPct(value, total), share, ERROR) && 0.0 <= share <= 100.0
  {
    SameShare(value, total, share);
    StatusNearShare(value, total);
    ShareInRange(value, total);
  }

  /** So is the availability, on all hours; `a` is the exact one. */
  lemma {:induction false} AvailabilityNear(h: Hours, a: real)
    requires h.NonNegative() && h.Total() > 0.0 && a * h.Total() == (h.prd + h.sby + h.egt) * 100.0
    ensures Near(AvailabilityPct(h.prd, h.sby, h.udt, h.sdt, h.egt, h.nst), a, ERROR) && 0.0 <= a <= 100.0
  {
    AvailabilityIsAStatus(h);
    NearItsShare(h.prd + h.sby + h.egt, h.Total(), a);
  }

  lemma {:induction false} AvailabilityIsAStatus(h: Hours)
    ensures AvailabilityPct(h.prd, h.sby, h.udt, h.sdt, h.egt, h.nst) == StatusPct(h.prd + h.sby + h.egt, h.Total())
  {
    assert h.prd + h.sby + h.egt + h.sdt + h.udt + h.nst == h.Total();
  }

  lemma {:induction false} YieldNear(h: Hours, y: real)
    requires h.NonNegative() && h.trackout + h.ng > 0.0 && y * (h.trackout + h.ng) == h.trackout * 100.0
    ensures Near(YieldPct(h.trackout, h.ng), y, ERROR)
  {
    assert YieldPct(h.trackout, h.ng) == StatusPct(h.trackout, h.trackout + h.ng);
    NearItsShare(h.trackout, h.trackout + h.ng, y);
  }

  /** From the factors to their product, whatever the hours they came from. */
  lemma {:induction false} OeeOfFactors(k: Kpi, a: real, y: real)
    requires 0.0 <= a <= 100.0 && 0.0 <= k.yieldPct <= 100.0 && k.oee == OeePct(k.availability, k.yieldPct)
    requires Near(k.availability, a, ERROR) && Near(k.yieldPct, y, ERROR)
    ensures Near(k.oee * 100.0, a * y, ERROR * 300.0)
  {
    OeeNear(a, y, k.availability, k.yieldPct);
  }

  /**
    With `a` and `y` the exact availability and yield: the reported OEE is at most three
    rounding errors away from a * y / 100.
  */
  lemma {:induction false} OeeNearExact(h: Hours, a: real, y: real)
    requires h.NonNegative() && h.Total() > 0.0 && h.trackout + h.ng > 0.0
    requires a * h.Total() == (h.prd + h.sby + h.egt) * 100.0 && y * (h.trackout + h.ng) == h.trackout * 100.0
    ensures Near(BuildKpi(h).oee * 100.0, a * y, ERROR * 300.0)
  {
    AvailabilityNear(h, a);
    YieldNear(h, y);
    var k := FactorsAreRounded(h);
    OeeOfFactors(k, a, y);
  }

  lemma {:induction false} OuGrows(prd: real, sby: real, udt: real, sdt: real, egt: real, total: real)
    requires prd >= 0.0 && sby >= 0.0 && udt >= 0.0 && sdt >= 0.0 && egt >= 0.0
    requires total >= prd + sby + udt + sdt + egt
    ensures OuPct(prd, sby, udt, sdt, egt) >= StatusPct(prd, total)
  {
    var scheduled := prd + sby + udt + sdt + egt;
    assert OuPct(prd, sby, udt, sdt, egt) == StatusPct(prd, scheduled);
    StatusGrows(prd, prd, total, scheduled);
  }

  lemma {:induction false} AvailabilityGrows(h: Hours, total: real)
    requires h.NonNegative() && total >= h.Total()
    ensures AvailabilityPct(h.prd, h.sby, h.udt, h.sdt, h.egt, h.nst) >= StatusPct(h.prd, total)
  {
    var up := h.prd + h.sby + h.egt;
    var all := up + h.sdt + h.udt + h.nst;
    assert AvailabilityPct(h.prd, h.sby, h.udt, h.sdt, h.egt, h.nst) == StatusPct(up, all);
    StatusGrows(h.prd, up, total, all);
  }

  /** Leaving the non-scheduled hours out of the base can only raise the productive share. */
  lemma {:induction false} OuAtLeastPrd(h: Hours)
    requires h.NonNegative()
    ensures BuildKpi(h).ou >= BuildKpi(h).prd && BuildKpi(h).availability >= BuildKpi(h).prd
  {
    OuGrows(h.prd, h.sby, h.udt, h.sdt, h.egt, h.Total());
    AvailabilityGrows(h, h.Total());
  }

  function Sum(values: seq<real>): real {
    if values == [] then 0.0 else values[0] + Sum(values[1..])
  }

  function PctSum(values: seq<real>, total: real): real {
    if values == [] then 0.0 else StatusPct(values[0], total) + PctSum(values[1..], total)
  }

  lemma {:induction false} ShareSplits(value: real, values: real, total: real)
    requires total > 0.0
    ensures (value + values) / total * 100.0 == value / total * 100.0 + values / total * 100.0
  {
  }

  lemma {:induction false} ShareOfAllAndNone(total: real)
    requires total > 0.0
    ensures 0.0 / total * 100.0 == 0.0 && total / total * 100.0 == 100.0
  {
  }

  lemma {:induction false} StatusNearShare(value: real, total: real)
    requires total > 0.0
    ensures Near(StatusPct(value, total), value / total * 100.0, ERROR)
  {
    RoundNear(value / total * 100.0);
  }

  lemma {:induction false} NearAdds(p: real, f: real, q: real, r: real, m: nat)
    requires Near(p, f, ERROR) && Near(q, r, m as real * ERROR)
    ensures Near(p + q, f + r, (m + 1) as real * ERROR)
  {
  }

  lemma {:induction false} PctSumStep(value: real, others: real, pcts: real, total: real, m: nat)
    requires total > 0.0 && Near(pcts, others / total * 100.0, m as real * ERROR)
    ensures Near(StatusPct(value, total) + pcts, (value + others) / total * 100.0, (m + 1) as real * ERROR)
  {
    StatusNearShare(value, total);
    ShareSplits(value, others, total);
    NearAdds(StatusPct(value, total), value / total * 100.0, pcts, others / total * 100.0, m);
  }

  /** Any number of status percentages: one rounding error each away from the share of their sum. */
  lemma {:induction false} PctSumNear(values: seq<real>, total: real)
    requires total > 0.0
    ensures Near(PctSum(values, total), Sum(values) / total * 100.0, |values| as real * ERROR)
  {
    if values == [] {
      ShareOfAllAndNone(total);
    } else {
      var rest := values[1..];
      PctSumNear(rest, total);
      PctSumStep(values[0], Sum(rest), PctSum(rest, total), total, |rest|);
    }
  }

  lemma {:induction false} SixValues(a: real, b: real, c: real, d: real, e: real, f: real, t: real)
    ensures Sum([a, b, c, d, e, f]) == a + b + c + d + e + f
    ensures PctSum([a, b, c, d, e, f], t) == StatusPct(a, t) + StatusPct(b, t) + StatusPct(c, t)
                                             + StatusPct(d, t) + StatusPct(e, t) + StatusPct(f, t)
  {
    var s5, s4, s3, s2, s1 := [b, c, d, e, f], [c, d, e, f], [d, e, f], [e, f], [f];
    assert [a, b, c, d, e, f][1..] == s5 && s5[1..] == s4 && s4[1..] == s3 && s3[1..] == s2 && s2[1..] == s1;
    assert s1[1..] == [];
    assert Sum(s1) == f && PctSum(s1, t) == StatusPct(f, t);
    assert Sum(s2) == e + f && Sum(s3) == d + e + f && Sum(s4) == c + d + e + f;
    assert PctSum(s2, t) == StatusPct(e, t) + PctSum(s1, t) && PctSum(s3, t) == StatusPct(d, t) + PctSum(s2, t);
    assert PctSum(s4, t) == StatusPct(c, t) + PctSum(s3, t) && PctSum(s5, t) == StatusPct(b, t) + PctSum(s4, t);
  }

  /** The six status percentages: 100 up to six rounding errors, whatever the signs, and all zero without hours. */
  lemma {:induction false} StatusesSumTo100(h: Hours)
    ensures var k := BuildKpi(h);
            var sum := k.prd + k.sby + k.udt + k.sdt + k.egt + k.nst;
            if h.Total() > 0.0 then Near(sum, 100.0, 6.0 * ERROR) else sum == 0.0
  {
    var t := h.Total();
    if t > 0.0 {
      PctSumNear([h.prd, h.sby, h.udt, h.sdt, h.egt, h.nst], t);
      SixValues(h.prd, h.sby, h.udt, h.sdt, h.egt, h.nst, t);
      ShareOfAllAndNone(t);
    }
  }
}
