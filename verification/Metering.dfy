/** Metering: usage, integer pricing, and how far pricing a sum can drift from summing prices. */
module Metering {
  datatype Usage = Usage(textIn: int, textOut: int, images: int, videoMillis: int, audioMillis: int, cost: int)

  datatype Pricing = Pricing(textIn: int, textOut: int, image: int, videoSecond: int, audioSecond: int)

  const NoUsage := Usage(0, 0, 0, 0, 0, 0)

  const PerMillion := 1_000_000

  function Add(u: Usage, v: Usage): Usage {
    Usage(u.textIn + v.textIn, u.textOut + v.textOut, u.images + v.images,
          u.videoMillis + v.videoMillis, u.audioMillis + v.audioMillis, u.cost + v.cost)
  }

  /** One metered quantity at a price per `unit`; the fraction of a micro is dropped. */
  function Charge(amount: int, price: int, unit: int): int
    requires unit > 0
  {
    if amount > 0 && price > 0 then amount * price / unit else 0
  }

  function ComputeCost(p: Pricing, u: Usage): int {
    Charge(u.textIn, p.textIn, PerMillion) + Charge(u.textOut, p.textOut, PerMillion)
    + Charge(u.images, p.image, 1)
    + Charge(u.videoMillis, p.videoSecond, 1000) + Charge(u.audioMillis, p.audioSecond, 1000)
  }

  function ApplyCost(p: Pricing, u: Usage): Usage {
    u.(cost := ComputeCost(p, u))
  }

  function Sum(us: seq<Usage>): Usage {
    if us == [] then NoUsage else Add(Sum(us[..|us| - 1]), us[|us| - 1])
  }

  function SumOfCosts(p: Pricing, us: seq<Usage>): int {
    if us == [] then 0 else SumOfCosts(p, us[..|us| - 1]) + ComputeCost(p, us[|us| - 1])
  }

  ghost predicate NonNegative(u: Usage) {
    u.textIn >= 0 && u.textOut >= 0 && u.images >= 0 && u.videoMillis >= 0 && u.audioMillis >= 0
  }

  lemma DivisionDrift(x: int, y: int, unit: int)
    requires x >= 0 && y >= 0 && unit > 0
    ensures 0 <= (x + y) / unit - x / unit - y / unit <= 1
  {
    var q, r := x / unit, x % unit;
    var s, t := y / unit, y % unit;
    assert x == q * unit + r && y == s * unit + t;
    assert x + y == (q + s) * unit + (r + t);
    if r + t < unit {
      QuotientIs(x + y, q + s, r + t, unit);
    } else {
      assert x + y == (q + s + 1) * unit + (r + t - unit);
      QuotientIs(x + y, q + s + 1, r + t - unit, unit);
    }
  }

  lemma QuotientIs(n: int, q: int, r: int, unit: int)
    requires unit > 0 && 0 <= r < unit && n == q * unit + r
    ensures n / unit == q
  {
    var d := n / unit - q;
    assert d * unit == r - n % unit;
    assert d >= 1 ==> d * unit >= unit;
    assert d <= -1 ==> d * unit <= -unit;
  }

  lemma ChargeDrift(a: int, b: int, price: int, unit: int)
    requires a >= 0 && b >= 0 && unit > 0
    ensures 0 <= Charge(a + b, price, unit) - Charge(a, price, unit) - Charge(b, price, unit) <= 1
    ensures unit == 1 ==> Charge(a + b, price, unit) == Charge(a, price, unit) + Charge(b, price, unit)
  {
    if price > 0 {
      assert (a + b) * price == a * price + b * price;
      assert a * price >= 0 && b * price >= 0;
      DivisionDrift(a * price, b * price, unit);
      assert a == 0 ==> a * price / unit == 0;
      assert b == 0 ==> b * price / unit == 0;
    }
  }

  /**
   * Pricing the summed usage of k attempts is never below the sum of the k prices, and above it by at most
   * one micro for each of the four rounded quantities and each attempt but one.
   */
  lemma {:induction false} PricingDrift(p: Pricing, us: seq<Usage>)
    requires forall i :: 0 <= i < |us| ==> NonNegative(us[i])
    ensures NonNegative(Sum(us))
    ensures 0 <= ComputeCost(p, Sum(us)) - SumOfCosts(p, us)
    ensures |us| >= 1 ==> ComputeCost(p, Sum(us)) - SumOfCosts(p, us) <= 4 * (|us| - 1)
    ensures us == [] ==> ComputeCost(p, Sum(us)) == 0
  {
    hide Charge;
    if us == [] {
      NothingCosts(p);
    } else {
      var n := |us| - 1;
      var s, u := Sum(us[..n]), us[n];
      PricingDrift(p, us[..n]);
      if n == 0 {
        assert Add(s, u) == u.(cost := u.cost);
      } else {
        ChargeDrift(s.textIn, u.textIn, p.textIn, PerMillion);
        ChargeDrift(s.textOut, u.textOut, p.textOut, PerMillion);
        ChargeDrift(s.images, u.images, p.image, 1);
        ChargeDrift(s.videoMillis, u.videoMillis, p.videoSecond, 1000);
        ChargeDrift(s.audioMillis, u.audioMillis, p.audioSecond, 1000);
      }
    }
  }

  lemma NothingCosts(p: Pricing)
    ensures ComputeCost(p, NoUsage) == 0
  {
  }

  /** Small amounts just below a whole unit: `k` of them together are charged `k - 1`, each alone nothing. */
  lemma JustBelow(k: nat, unit: int)
    requires 1 <= k <= unit
    ensures Charge(k, unit - 1, unit) == k - 1 && (unit > 1 ==> Charge(1, unit - 1, unit) == 0)
  {
    assert k * (unit - 1) == (k - 1) * unit + (unit - k);
    QuotientIs(k * (unit - 1), k - 1, unit - k, unit);
    QuotientIs(unit - 1, 0, unit - 1, unit);
    assert k == 1 ==> Charge(k, unit - 1, unit) == 0;
  }

  /** The drift really gets that large: one token and one millisecond at a time, just below a whole micro each. */
  lemma DriftIsReached(k: nat)
    requires 1 <= k <= 1000
    ensures var p := Pricing(999_999, 999_999, 0, 999, 999);
            var us := seq(k, _ => Usage(1, 1, 0, 1, 1, 0));
            ComputeCost(p, Sum(us)) - SumOfCosts(p, us) == 4 * (k - 1)
  {
    hide Charge, Sum, SumOfCosts;
    var p := Pricing(999_999, 999_999, 0, 999, 999);
    var u := Usage(1, 1, 0, 1, 1, 0);
    SumOfEqual(p, u, k);
    JustBelow(k, PerMillion);
    JustBelow(k, 1000);
    NoCharge(1);
    assert ComputeCost(p, u) == 0;
    Zeros(k);
  }

  lemma Zeros(k: int)
    ensures k * 0 == 0 && k * 1 == k
  {
  }

  lemma NoCharge(unit: int)
    requires unit > 0
    ensures Charge(0, 0, unit) == 0
  {
  }

  lemma {:induction false} SumOfEqual(p: Pricing, u: Usage, k: nat)
    ensures var us := seq(k, _ => u);
            Sum(us) == Usage(k * u.textIn, k * u.textOut, k * u.images, k * u.videoMillis, k * u.audioMillis, k * u.cost)
            && SumOfCosts(p, us) == k * ComputeCost(p, u)
  {
    hide ComputeCost;
    if k > 0 {
      SumOfEqual(p, u, k - 1);
      assert seq(k, _ => u)[..k - 1] == seq(k - 1, _ => u);
      TimesNext(k, u.textIn);
      TimesNext(k, u.textOut);
      TimesNext(k, u.images);
      TimesNext(k, u.videoMillis);
      TimesNext(k, u.audioMillis);
      TimesNext(k, u.cost);
      TimesNext(k, ComputeCost(p, u));
    }
  }

  lemma TimesNext(k: int, x: int)
    ensures (k - 1) * x + x == k * x
  {
  }

  /** A quantity at a price, for a unit: nothing unless both are positive, and else rounded down. */
  lemma ChargeRoundsDown(amount: int, price: int, unit: int)
    requires unit > 0
    ensures var c := Charge(amount, price, unit);
      if amount > 0 && price > 0 then c * unit <= amount * price < (c + 1) * unit else c == 0
  {
  }

  /** Text costs its price per million tokens, each way at its own price; images cost by the piece, video and audio by the second. */
  lemma EachQuantityHasItsPrice(p: Pricing, n: nat, cost: int)
    requires p.textIn >= 0 && p.textOut >= 0 && p.image >= 0 && p.videoSecond >= 0 && p.audioSecond >= 0
    ensures ComputeCost(p, Usage(n, 0, 0, 0, 0, cost)) == n * p.textIn / 1_000_000
    ensures ComputeCost(p, Usage(0, n, 0, 0, 0, cost)) == n * p.textOut / 1_000_000
    ensures ComputeCost(p, Usage(0, 0, n, 0, 0, cost)) == n * p.image
    ensures ComputeCost(p, Usage(0, 0, 0, n, 0, cost)) == n * p.videoSecond / 1000
    ensures ComputeCost(p, Usage(0, 0, 0, 0, n, cost)) == n * p.audioSecond / 1000
  {
    ChargeIs(n, p.textIn, PerMillion);
    ChargeIs(n, p.textOut, PerMillion);
    ChargeIs(n, p.image, 1);
    ChargeIs(n, p.videoSecond, 1000);
    ChargeIs(n, p.audioSecond, 1000);
    hide Charge;
    NothingCharged(p);
  }

  lemma ChargeIs(n: nat, price: int, unit: int)
    requires price >= 0 && unit > 0
    ensures Charge(n, price, unit) == n * price / unit
  {
    assert n == 0 || price == 0 ==> n * price == 0;
  }

  lemma NothingCharged(p: Pricing)
    ensures Charge(0, p.textIn, PerMillion) == 0 && Charge(0, p.textOut, PerMillion) == 0 && Charge(0, p.image, 1) == 0
    ensures Charge(0, p.videoSecond, 1000) == 0 && Charge(0, p.audioSecond, 1000) == 0
  {
  }

  /** The price of a usage is that of its five quantities one by one; what it cost before does not matter. */
  lemma CostSplits(p: Pricing, u: Usage)
    ensures ComputeCost(p, u)
         == ComputeCost(p, Usage(u.textIn, 0, 0, 0, 0, 0)) + ComputeCost(p, Usage(0, u.textOut, 0, 0, 0, 0))
            + ComputeCost(p, Usage(0, 0, u.images, 0, 0, 0)) + ComputeCost(p, Usage(0, 0, 0, u.videoMillis, 0, 0))
            + ComputeCost(p, Usage(0, 0, 0, 0, u.audioMillis, 0))
  {
    hide Charge;
    NothingCharged(p);
  }
}
