/** Finding the sales tax that corresponds to a rate.

    `account.tax.get_tax_from_rate` looks for a sales tax whose amount lies
    within a narrow window around the rate and whose "price included" flag is
    the one asked for; when there is none it tries once more with a wider
    window, and when that fails too it answers False. Amounts and rates are
    exact reals here, so the windows are closed intervals with exact bounds. */
module AccountTax {
  import opened Search

  /** An `account.tax` record: the three fields the search reads, and its id,
      which no operation reads but which tells apart two taxes with equal
      fields. */
  datatype Tax = Tax(id: int, priceInclude: bool, typeTaxUse: string, amount: real)

  /** The first matching tax, or Python's False. */
  datatype TaxAnswer = NoTax | Found(tax: Tax)

  /** Half-width of the first, exact-ish search window. */
  const ExactTolerance: real := 0.001

  /** Half-width of the second, coarser search window. */
  const LooseTolerance: real := 0.01

  /** The domain of one search: same inclusive flag, usage 'sale', amount in
      [rate - tolerance, rate + tolerance]. */
  predicate Eligible(t: Tax, rate: real, isTaxIncluded: bool, tolerance: real)
  {
    && t.priceInclude == isTaxIncluded
    && t.typeTaxUse == "sale"
    && rate - tolerance <= t.amount
    && t.amount <= rate + tolerance
  }

  function Within(rate: real, isTaxIncluded: bool, tolerance: real): Tax -> bool
  {
    t => Eligible(t, rate, isTaxIncluded, tolerance)
  }

  /** `get_tax_from_rate(rate, is_tax_included)` over the taxes in search order.
      Whatever it returns is a sales tax with the requested flag whose amount
      is within the coarse window. */
  function GetTaxFromRate(taxes: seq<Tax>, rate: real, isTaxIncluded: bool): (r: TaxAnswer)
    ensures r.Found? ==> r.tax in taxes
    ensures r.Found? ==> && r.tax.priceInclude == isTaxIncluded
                         && r.tax.typeTaxUse == "sale"
                         && rate - LooseTolerance <= r.tax.amount <= rate + LooseTolerance
  {
    var exact := Filter(taxes, Within(rate, isTaxIncluded, ExactTolerance));
    if exact != [] then
      assert exact[0] in exact;
      Found(exact[0])
    else
      var loose := Filter(taxes, Within(rate, isTaxIncluded, LooseTolerance));
      if loose != [] then
        assert loose[0] in loose;
        Found(loose[0])
      else
        NoTax
  }

  /** A tax that matches the exact window is found at that tier: the answer
      is the first such tax in search order. */
  lemma ExactTierFirstMatch(taxes: seq<Tax>, rate: real, isTaxIncluded: bool, i: int)
    requires FirstAt(taxes, Within(rate, isTaxIncluded, ExactTolerance), i)
    ensures GetTaxFromRate(taxes, rate, isTaxIncluded) == Found(taxes[i])
  {
    FilterFirst(taxes, Within(rate, isTaxIncluded, ExactTolerance), i);
  }

  /** An exact-window match wins over a coarse-window candidate even when the
      candidate comes earlier in search order. */
  lemma ExactTierBeatsEarlierLooseMatch(taxes: seq<Tax>, rate: real, isTaxIncluded: bool, i: int, j: int)
    requires FirstAt(taxes, Within(rate, isTaxIncluded, ExactTolerance), i)
    requires 0 <= j < i && Eligible(taxes[j], rate, isTaxIncluded, LooseTolerance)
    ensures GetTaxFromRate(taxes, rate, isTaxIncluded) == Found(taxes[i])
    ensures GetTaxFromRate(taxes, rate, isTaxIncluded) != Found(taxes[j])
  {
    ExactTierFirstMatch(taxes, rate, isTaxIncluded, i);
    assert !Within(rate, isTaxIncluded, ExactTolerance)(taxes[j]);
  }

  /** With no exact-window match, the answer is the first tax in search order
      that matches the coarse window. */
  lemma LooseTierFallback(taxes: seq<Tax>, rate: real, isTaxIncluded: bool, i: int)
    requires NoneSatisfy(taxes, Within(rate, isTaxIncluded, ExactTolerance))
    requires FirstAt(taxes, Within(rate, isTaxIncluded, LooseTolerance), i)
    ensures GetTaxFromRate(taxes, rate, isTaxIncluded) == Found(taxes[i])
  {
    FilterEmpty(taxes, Within(rate, isTaxIncluded, ExactTolerance));
    FilterFirst(taxes, Within(rate, isTaxIncluded, LooseTolerance), i);
  }

  /** The answer is False exactly when no tax matches the coarse window; the
      search never fails. */
  lemma NoTaxIffNoneWithinLooseWindow(taxes: seq<Tax>, rate: real, isTaxIncluded: bool)
    ensures GetTaxFromRate(taxes, rate, isTaxIncluded) == NoTax
            <==> NoneSatisfy(taxes, Within(rate, isTaxIncluded, LooseTolerance))
  {
    var exact := Within(rate, isTaxIncluded, ExactTolerance);
    var loose := Within(rate, isTaxIncluded, LooseTolerance);
    FilterEmpty(taxes, exact);
    FilterEmpty(taxes, loose);
    if NoneSatisfy(taxes, loose) {
      forall k | 0 <= k < |taxes|
        ensures !exact(taxes[k])
      {
        assert !loose(taxes[k]);
      }
    }
  }

  /** A tax stored at exactly the requested rate makes the search succeed in
      the first tier: the answer is some tax in the exact window, not
      necessarily this one (`ExactTierFirstMatch` says which). */
  lemma ExactRateFoundInFirstTier(taxes: seq<Tax>, rate: real, isTaxIncluded: bool, i: int)
    requires 0 <= i < |taxes|
    requires taxes[i].priceInclude == isTaxIncluded && taxes[i].typeTaxUse == "sale"
    requires taxes[i].amount == rate
    ensures GetTaxFromRate(taxes, rate, isTaxIncluded).Found?
    ensures Eligible(GetTaxFromRate(taxes, rate, isTaxIncluded).tax, rate, isTaxIncluded, ExactTolerance)
  {
    var exact := Within(rate, isTaxIncluded, ExactTolerance);
    assert exact(taxes[i]);
    FilterEmpty(taxes, exact);
    var f := Filter(taxes, exact);
    assert f[0] in f;
  }
}
