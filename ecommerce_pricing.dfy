/**
 * `EcommercePricingEngine`: the final-price computation around the external
 * math verifier, with its two counters; the itemised breakdown; bulk
 * discount tier selection; and the statistics.
 */
module EcommercePricing {
  import opened Values

  // ---------------------------------------------------------------------
  // Prices

  /** The dictionary `_calculate_breakdown` returns (before rounding). */
  datatype Breakdown = Breakdown(
    subtotal: real, discountAmount: real, afterDiscount: real,
    shipping: real, taxAmount: real, finalPrice: real)

  /** `_calculate_breakdown(base, qty, discount, shipping, tax, final)`. */
  function CalculateBreakdown(base: real, qty: int, discount: real, shipping: real, tax: real, final: real): Breakdown {
    var subtotal := base * qty as real;
    var discountAmount := subtotal * (discount / 100.0);
    var afterDiscount := subtotal - discountAmount;
    var taxAmount := (afterDiscount + shipping) * (tax / 100.0);
    Breakdown(subtotal, discountAmount, afterDiscount, shipping, taxAmount, final)
  }

  /** The manual calculation used when the verifier does not confirm the price. */
  function FallbackPrice(base: real, qty: int, discount: real, shipping: real, tax: real): real {
    var subtotal := base * qty as real;
    var afterDiscount := subtotal * (1.0 - discount / 100.0);
    (afterDiscount + shipping) * (1.0 + tax / 100.0)
  }

  /** The breakdown of a fallback price adds up: the discounted amount is
      the subtotal reduced by the discount rate, and the final price is the
      discounted amount plus shipping plus tax. */
  lemma FallbackBreakdownAddsUp(base: real, qty: int, discount: real, shipping: real, tax: real)
    ensures var b := CalculateBreakdown(base, qty, discount, shipping, tax, FallbackPrice(base, qty, discount, shipping, tax));
      && b.subtotal == base * qty as real
      && b.afterDiscount == b.subtotal * (1.0 - discount / 100.0)
      && b.finalPrice == b.afterDiscount + b.shipping + b.taxAmount
  {
    var subtotal := base * qty as real;
    var after := subtotal - subtotal * (discount / 100.0);
    assert after == subtotal * (1.0 - discount / 100.0);
    assert (after + shipping) * (1.0 + tax / 100.0) == after + shipping + (after + shipping) * (tax / 100.0);
  }

  /** What the returned dictionary carries besides the price: the warning of
      an unverified price, or the verifier's method. */
  datatype PriceNote = Warning(text: string) | Method(name: Json)

  datatype PriceQuote = PriceQuote(
    finalPrice: real, verified: bool, confidence: real, breakdown: Breakdown, note: PriceNote)

  const UnverifiedWarning: string := "Unverified calculation - manual review recommended"

  /** What `calculate_final_price` returns, or the message of the
      `PricingError` it raises, for one outcome of `verify_math`. */
  function FinalPrice(base: real, discount: real, tax: real, qty: int, shipping: real, call: Call): Result<PriceQuote, string> {
    match call
    case Raised(e) => Err("Cannot calculate price: " + e)
    case Returned(result) =>
      if !result.verified then
        var final := FallbackPrice(base, qty, discount, shipping, tax);
        Ok(PriceQuote(final, false, 0.0, CalculateBreakdown(base, qty, discount, shipping, tax, final),
                      Warning(UnverifiedWarning)))
      else
        Ok(PriceQuote(result.value, true, 100.0, CalculateBreakdown(base, qty, discount, shipping, tax, result.value),
                      Method(GetOr(result.evidence, "method", JStr("symbolic")))))
  }

  /** The outcomes that count as a pricing error. */
  predicate IsPricingError(call: Call) {
    call.Raised? || !call.result.verified
  }

  /** A verified price is the verifier's, with full confidence; an unverified
      one is the fallback formula with zero confidence and a warning; a
      verifier exception becomes a PricingError. */
  lemma FinalPriceCases(base: real, discount: real, tax: real, qty: int, shipping: real, call: Call)
    ensures var r := FinalPrice(base, discount, tax, qty, shipping, call);
      && (r.Err? <==> call.Raised?)
      && (r.Ok? ==> (r.value.verified <==> !IsPricingError(call)))
      && (r.Ok? && r.value.verified ==>
            r.value.finalPrice == call.result.value && r.value.confidence == 100.0 && r.value.note.Method?)
      && (r.Ok? && !r.value.verified ==>
            && r.value.finalPrice == ((base * qty as real * (1.0 - discount / 100.0)) + shipping) * (1.0 + tax / 100.0)
            && r.value.confidence == 0.0 && r.value.note == Warning(UnverifiedWarning))
      && (r.Ok? ==> r.value.breakdown.finalPrice == r.value.finalPrice)
  {
  }

  // ---------------------------------------------------------------------
  // Bulk discount tiers

  datatype Tier = Tier(minQty: int, discountPercent: real)

  /** One step of the stable sort: `t` goes after every tier whose
      `min_qty` is at least its own. */
  function Insert(t: Tier, s: seq<Tier>): (r: seq<Tier>)
    ensures |r| == |s| + 1
  {
    if |s| == 0 then [t]
    else if s[0].minQty >= t.minQty then [s[0]] + Insert(t, s[1..])
    else [t] + s
  }

  /** `sorted(tiers, key=lambda x: x['min_qty'], reverse=True)`: Python's sort
      is stable, also in reverse, so tiers with equal `min_qty` keep their
      input order. */
  function SortByMinQtyDesc(tiers: seq<Tier>): (r: seq<Tier>)
    ensures |r| == |tiers|
  {
    if |tiers| == 0 then []
    else Insert(tiers[|tiers| - 1], SortByMinQtyDesc(tiers[..|tiers| - 1]))
  }

  predicate SortedDesc(s: seq<Tier>) {
    forall i, j :: 0 <= i < j < |s| ==> s[i].minQty >= s[j].minQty
  }

  /** Inserting keeps every tier and adds `t`. */
  lemma {:induction false} InsertMultiset(t: Tier, s: seq<Tier>)
    ensures multiset(Insert(t, s)) == multiset(s) + multiset{t}
  {
    if |s| > 0 && s[0].minQty >= t.minQty {
      InsertMultiset(t, s[1..]);
      assert s == [s[0]] + s[1..];
    }
  }

  /** Inserting under a bound that `t` and all of `s` respect keeps to it. */
  lemma {:induction false} InsertBelow(t: Tier, s: seq<Tier>, bound: int)
    requires t.minQty <= bound && forall k :: 0 <= k < |s| ==> s[k].minQty <= bound
    ensures forall k :: 0 <= k < |Insert(t, s)| ==> Insert(t, s)[k].minQty <= bound
  {
    if |s| > 0 && s[0].minQty >= t.minQty {
      InsertBelow(t, s[1..], bound);
    }
  }

  lemma {:induction false} InsertSorted(t: Tier, s: seq<Tier>)
    requires SortedDesc(s)
    ensures SortedDesc(Insert(t, s))
  {
    if |s| > 0 && s[0].minQty >= t.minQty {
      InsertSorted(t, s[1..]);
      InsertBelow(t, s[1..], s[0].minQty);
    }
  }

  /** The sort puts the tiers in descending `min_qty` order and keeps every tier. */
  lemma {:induction false} SortSpec(tiers: seq<Tier>)
    ensures SortedDesc(SortByMinQtyDesc(tiers))
    ensures multiset(SortByMinQtyDesc(tiers)) == multiset(tiers)
  {
    if |tiers| > 0 {
      var init := tiers[..|tiers| - 1];
      SortSpec(init);
      InsertSorted(tiers[|tiers| - 1], SortByMinQtyDesc(init));
      InsertMultiset(tiers[|tiers| - 1], SortByMinQtyDesc(init));
      assert tiers == init + [tiers[|tiers| - 1]];
    }
  }

  /** What the loop with its `break` finds: the first tier whose `min_qty`
      the quantity reaches. */
  function FirstApplicable(s: seq<Tier>, quantity: int): Option<Tier> {
    if |s| == 0 then None
    else if quantity >= s[0].minQty then Some(s[0])
    else FirstApplicable(s[1..], quantity)
  }

  /** The tier the selection should pick, as a reference: reading the tiers
      in input order, a tier replaces the current choice when it applies and
      its `min_qty` is strictly larger. */
  function BestTier(tiers: seq<Tier>, quantity: int): Option<Tier> {
    if |tiers| == 0 then None
    else
      var best := BestTier(tiers[..|tiers| - 1], quantity);
      var t := tiers[|tiers| - 1];
      if quantity >= t.minQty && (best.None? || best.value.minQty < t.minQty) then Some(t) else best
  }

  /** The reference picks an applicable tier with the largest `min_qty`, the
      earliest of those in input order, and picks none only when no tier
      applies. */
  lemma {:induction false} BestTierSpec(tiers: seq<Tier>, quantity: int)
    ensures BestTier(tiers, quantity).None? <==> forall j :: 0 <= j < |tiers| ==> quantity < tiers[j].minQty
    ensures BestTier(tiers, quantity).Some? ==>
      exists i :: 0 <= i < |tiers| && tiers[i] == BestTier(tiers, quantity).value && BestAt(tiers, quantity, i)
  {
    if |tiers| > 0 {
      var init := tiers[..|tiers| - 1];
      BestTierSpec(init, quantity);
      var best := BestTier(init, quantity);
      var n := |tiers| - 1;
      var t := tiers[n];
      if quantity >= t.minQty && (best.None? || best.value.minQty < t.minQty) {
        if best.Some? {
          var i :| 0 <= i < |init| && init[i] == best.value && BestAt(init, quantity, i);
          assert BestAt(tiers, quantity, n);
        } else {
          assert BestAt(tiers, quantity, n);
        }
      } else if best.Some? {
        var i :| 0 <= i < |init| && init[i] == best.value && BestAt(init, quantity, i);
        assert BestAt(tiers, quantity, i);
      }
    }
  }

  /** Tier i applies, no applicable tier has a larger `min_qty`, and every
      applicable tier before it has a smaller one. */
  predicate BestAt(tiers: seq<Tier>, quantity: int, i: int)
    requires 0 <= i < |tiers|
  {
    && quantity >= tiers[i].minQty
    && (forall j :: 0 <= j < |tiers| && quantity >= tiers[j].minQty ==> tiers[j].minQty <= tiers[i].minQty)
    && (forall j :: 0 <= j < i && quantity >= tiers[j].minQty ==> tiers[j].minQty < tiers[i].minQty)
  }

  lemma {:induction false} InsertFirstApplicable(t: Tier, s: seq<Tier>, quantity: int)
    requires SortedDesc(s)
    ensures var first := FirstApplicable(s, quantity);
      FirstApplicable(Insert(t, s), quantity)
        == if quantity >= t.minQty && (first.None? || first.value.minQty < t.minQty) then Some(t) else first
  {
    if |s| > 0 && s[0].minQty >= t.minQty {
      assert SortedDesc(s[1..]);
      InsertFirstApplicable(t, s[1..], quantity);
    }
  }

  /** Taking the first applicable tier of the sorted list is the reference choice. */
  lemma {:induction false} SortedFirstIsBest(tiers: seq<Tier>, quantity: int)
    ensures FirstApplicable(SortByMinQtyDesc(tiers), quantity) == BestTier(tiers, quantity)
  {
    if |tiers| > 0 {
      var init := tiers[..|tiers| - 1];
      SortedFirstIsBest(init, quantity);
      SortSpec(init);
      InsertFirstApplicable(tiers[|tiers| - 1], SortByMinQtyDesc(init), quantity);
    }
  }

  /** The example tiers: 5 items get the 0% tier, 15 the 5% tier, 75 the 10% tier. */
  lemma ExampleTiers()
    ensures var tiers := [Tier(1, 0.0), Tier(10, 5.0), Tier(50, 10.0), Tier(100, 15.0)];
      && BestTier(tiers, 5) == Some(Tier(1, 0.0))
      && BestTier(tiers, 15) == Some(Tier(10, 5.0))
      && BestTier(tiers, 75) == Some(Tier(50, 10.0))
  {
    var tiers := [Tier(1, 0.0), Tier(10, 5.0), Tier(50, 10.0), Tier(100, 15.0)];
    var p3 := [Tier(1, 0.0), Tier(10, 5.0), Tier(50, 10.0)];
    var p2 := [Tier(1, 0.0), Tier(10, 5.0)];
    var p1 := [Tier(1, 0.0)];
    assert tiers[..3] == p3 && p3[..2] == p2 && p2[..1] == p1 && p1[..0] == [];
    assert BestTier(p1, 5) == Some(Tier(1, 0.0)) && BestTier(p2, 5) == Some(Tier(1, 0.0));
    assert BestTier(p3, 5) == Some(Tier(1, 0.0));
    assert BestTier(p1, 15) == Some(Tier(1, 0.0)) && BestTier(p2, 15) == Some(Tier(10, 5.0));
    assert BestTier(p3, 15) == Some(Tier(10, 5.0));
    assert BestTier(p1, 75) == Some(Tier(1, 0.0)) && BestTier(p2, 75) == Some(Tier(10, 5.0));
    assert BestTier(p3, 75) == Some(Tier(50, 10.0));
  }

  /** The dictionary `validate_bulk_discount_tier` returns. */
  datatype TierResult =
    | NoTierApplies
    | TierApplied(discountPercent: real, tierMinQty: int, verified: bool, logicMethod: Json)

  function TierDiscount(r: TierResult): real {
    match r case NoTierApplies => 0.0 case TierApplied(d, _, _, _) => d
  }

  function TierVerified(r: TierResult): bool {
    match r case NoTierApplies => true case TierApplied(_, _, v, _) => v
  }

  // ---------------------------------------------------------------------
  // The engine

  datatype PricingStats = PricingStats(totalCalculations: nat, pricingErrors: nat, accuracyRate: real)

  class PricingEngine {
    var pricingErrors: nat
    var totalCalculations: nat

    /** Every pricing error belongs to a calculation. */
    predicate Valid()
      reads this
    {
      pricingErrors <= totalCalculations
    }

    constructor()
      ensures pricingErrors == 0 && totalCalculations == 0 && Valid()
    {
      pricingErrors := 0;
      totalCalculations := 0;
    }

    /** `calculate_final_price`: every call is counted; an unverified price
        or a verifier exception is also a pricing error. */
    method CalculateFinalPrice(base: real, discount: real, tax: real, qty: int, shipping: real, call: Call)
      returns (r: Result<PriceQuote, string>)
      requires Valid()
      modifies this
      ensures Valid()
      ensures totalCalculations == old(totalCalculations) + 1
      ensures pricingErrors == old(pricingErrors) + (if IsPricingError(call) then 1 else 0)
      ensures r == FinalPrice(base, discount, tax, qty, shipping, call)
    {
      totalCalculations := totalCalculations + 1;
      if call.Raised? {
        pricingErrors := pricingErrors + 1;
        return Err("Cannot calculate price: " + call.exception);
      }
      var result := call.result;
      if !result.verified {
        pricingErrors := pricingErrors + 1;
        var subtotal := base * qty as real;
        var afterDiscount := subtotal * (1.0 - discount / 100.0);
        var withShipping := afterDiscount + shipping;
        var final := withShipping * (1.0 + tax / 100.0);
        assert final == FallbackPrice(base, qty, discount, shipping, tax);
        return Ok(PriceQuote(final, false, 0.0, CalculateBreakdown(base, qty, discount, shipping, tax, final),
                             Warning(UnverifiedWarning)));
      }
      var finalPrice := result.value;
      return Ok(PriceQuote(finalPrice, true, 100.0, CalculateBreakdown(base, qty, discount, shipping, tax, finalPrice),
                           Method(GetOr(result.evidence, "method", JStr("symbolic")))));
    }

    /** `validate_bulk_discount_tier`: walks the sorted tiers and stops at the
        first that applies; with none, the verifier is not consulted. */
    method ValidateBulkDiscountTier(quantity: int, tiers: seq<Tier>, call: Call) returns (r: Result<TierResult, string>)
      ensures BestTier(tiers, quantity).None? ==> r == Ok(NoTierApplies)
      ensures BestTier(tiers, quantity).Some? ==>
        var t := BestTier(tiers, quantity).value;
        match call
        case Raised(e) => r == Err(e)
        case Returned(res) =>
          r == Ok(TierApplied(t.discountPercent, t.minQty, res.verified, GetOr(res.evidence, "method", JStr("symbolic"))))
    {
      var sorted := SortByMinQtyDesc(tiers);
      var applicable: Option<Tier> := None;
      var i := 0;
      while i < |sorted|
        invariant 0 <= i <= |sorted|
        invariant applicable.None? ==> FirstApplicable(sorted[i..], quantity) == FirstApplicable(sorted, quantity)
        invariant applicable.Some? ==> applicable == FirstApplicable(sorted, quantity)
        decreases |sorted| - i, if applicable.None? then 1 else 0
      {
        if quantity >= sorted[i].minQty {
          applicable := Some(sorted[i]);
          break;
        }
        assert sorted[i..][1..] == sorted[i + 1..];
        i := i + 1;
      }
      SortedFirstIsBest(tiers, quantity);
      if applicable.None? {
        assert sorted[i..] == [];
        return Ok(NoTierApplies);
      }
      var tier := applicable.value;
      if call.Raised? {
        return Err(call.exception);
      }
      var result := call.result;
      return Ok(TierApplied(tier.discountPercent, tier.minQty, result.verified,
                            GetOr(result.evidence, "method", JStr("symbolic"))));
    }

    /** `get_pricing_stats()`. */
    function Stats(): (s: PricingStats)
      reads this
      ensures Valid() ==> 0.0 <= s.accuracyRate <= 100.0
      ensures Valid() ==> (s.accuracyRate == 100.0 <==> pricingErrors == 0)
      ensures totalCalculations > 0 && pricingErrors == totalCalculations ==> s.accuracyRate == 0.0
      ensures s.totalCalculations == totalCalculations && s.pricingErrors == pricingErrors
    {
      PricingStats(totalCalculations, pricingErrors,
                   if totalCalculations > 0
                   then (totalCalculations - pricingErrors) as real / totalCalculations as real * 100.0
                   else 100.0)
    }
  }
}
