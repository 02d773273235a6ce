/**
  services/kalshi_fees.py over exact reals: the per-fill fee with its one
  millionth-dollar ceiling, side-aware unit cost, and the two exit quotes.
*/
module KalshiFees {
  import opened Wrappers
  import opened Reals

  const TAKER_RATE: real := 0.07
  const MAKER_RATE: real := TAKER_RATE / 4.0
  const MICRO: real := 1000000.0

  datatype Side = Yes | No

  /** What the fee lookups find for one ticker: the event's override if it has one, the series'
      multiplier, whether the event's fee type doubles maker fees, and the combo-series exemption. */
  datatype Terms = Terms(
    overrideMultiplier: Option<real>, seriesMultiplier: real, comboMakerFees: bool, makerExempt: bool)

  predicate NonNegative(terms: Terms) {
    Multiplier(terms) >= 0.0
  }

  function Multiplier(terms: Terms): real {
    if terms.overrideMultiplier.Some? then terms.overrideMultiplier.value else terms.seriesMultiplier
  }

  function Ceiling(x: real): int {
    -((-x).Floor)
  }

  /** math.ceil(raw * 1_000_000) / 1_000_000. */
  function RoundUp(raw: real): real {
    Ceiling(raw * MICRO) as real / MICRO
  }

  /** The unrounded charge at one of the two rates. */
  function Charge(rate: real, multiplier: real, contracts: real, price: real): real {
    rate * multiplier * contracts * price * (1.0 - price)
  }

  function TakerFee(contracts: real, price: real, terms: Terms): real {
    if contracts <= 0.0 || price <= 0.0 || price >= 1.0 then 0.0
    else if Multiplier(terms) == 0.0 then 0.0
    else RoundUp(Charge(TAKER_RATE, Multiplier(terms), contracts, price))
  }

  function MakerFee(contracts: real, price: real, terms: Terms): real {
    if contracts <= 0.0 || price <= 0.0 || price >= 1.0 then 0.0
    else if terms.makerExempt then 0.0
    else if Multiplier(terms) == 0.0 then 0.0
    else
      var typeFactor := if terms.comboMakerFees then 2.0 else 1.0;
      RoundUp(Charge(MAKER_RATE * typeFactor, Multiplier(terms), contracts, price))
  }

  function TakerFeePerContract(price: real, terms: Terms): real {
    if price <= 0.0 || price >= 1.0 then 0.0 else TAKER_RATE * Multiplier(terms) * price * (1.0 - price)
  }

  function UnitCost(side: Side, yesPrice: real): real {
    match side
    case Yes => yesPrice
    case No => 1.0 - yesPrice
  }

  // ---- Rounding ----

  lemma RoundUpBounds(raw: real)
    ensures raw <= RoundUp(raw) < raw + 1.0 / MICRO
  {
    var scaled := raw * MICRO;
    assert scaled <= Ceiling(scaled) as real < scaled + 1.0;
  }

  /** Nothing between a value and its rounding is itself a whole number of millionths. */
  lemma RoundUpLeast(raw: real, n: int)
    requires raw <= n as real / MICRO
    ensures RoundUp(raw) <= n as real / MICRO
  {
    assert raw * MICRO <= n as real;
    assert -(n as real) <= -(raw * MICRO);
    assert (-(raw * MICRO)).Floor >= -n;
  }

  lemma RoundUpMonotone(a: real, b: real)
    requires a <= b
    ensures RoundUp(a) <= RoundUp(b)
  {
    RoundUpBounds(b);
    RoundUpLeast(a, Ceiling(b * MICRO));
  }

  /** The unrounded charge of a fill. */
  function TakerRaw(contracts: real, price: real, terms: Terms): real {
    contracts * TakerFeePerContract(price, terms)
  }

  lemma TakerFeeIsRoundedRaw(contracts: real, price: real, terms: Terms)
    requires contracts > 0.0
    ensures TakerFee(contracts, price, terms) == RoundUp(TakerRaw(contracts, price, terms))
  {
    assert RoundUp(0.0) == 0.0;
    if 0.0 < price < 1.0 {
      ChargeIsRaw(contracts, price, terms);
      if Multiplier(terms) == 0.0 {
        assert TakerFeePerContract(price, terms) == 0.0;
      }
    }
  }

  lemma ChargeIsRaw(contracts: real, price: real, terms: Terms)
    requires 0.0 < price < 1.0
    ensures Charge(TAKER_RATE, Multiplier(terms), contracts, price) == TakerRaw(contracts, price, terms)
  {
    Reorder(TAKER_RATE * Multiplier(terms), contracts, price, 1.0 - price);
  }

  lemma Reorder(a: real, n: real, p: real, q: real)
    ensures a * n * p * q == n * (a * p * q)
  {
    assert a * n * p * q == (a * n) * (p * q);
    assert (a * n) * (p * q) == n * (a * (p * q));
    assert a * (p * q) == a * p * q;
  }

  /** The fee of a fill exceeds the exact per-contract rate by less than a millionth of a dollar in all,
      and never falls below it. */
  lemma FeeRoundsUpOnce(contracts: real, price: real, terms: Terms)
    requires contracts >= 0.0
    ensures 0.0 <= TakerFee(contracts, price, terms) - contracts * TakerFeePerContract(price, terms) < 1.0 / MICRO
  {
    if contracts > 0.0 {
      TakerFeeIsRoundedRaw(contracts, price, terms);
      RoundUpBounds(TakerRaw(contracts, price, terms));
    }
  }

  function Total(parts: seq<real>): real {
    if parts == [] then 0.0 else parts[0] + Total(parts[1..])
  }

  function SplitFees(parts: seq<real>, price: real, terms: Terms): real {
    if parts == [] then 0.0 else TakerFee(parts[0], price, terms) + SplitFees(parts[1..], price, terms)
  }

  lemma RoundUpSplits(a: real, b: real)
    ensures RoundUp(a + b) <= RoundUp(a) + RoundUp(b)
  {
    RoundUpBounds(a);
    RoundUpBounds(b);
    var m, n := Ceiling(a * MICRO), Ceiling(b * MICRO);
    assert RoundUp(a) + RoundUp(b) == (m + n) as real / MICRO;
    RoundUpLeast(a + b, m + n);
  }

  function Rounded(raws: seq<real>): real {
    if raws == [] then 0.0 else RoundUp(raws[0]) + Rounded(raws[1..])
  }

  /** Rounding up piecewise: never below rounding the sum, never a whole millionth per piece above it. */
  lemma {:induction false} RoundedBounds(raws: seq<real>)
    requires raws != []
    ensures RoundUp(Total(raws)) <= Rounded(raws) < Total(raws) + |raws| as real / MICRO
    decreases |raws|
  {
    RoundUpBounds(raws[0]);
    if |raws| == 1 {
      assert raws[1..] == [] && Total(raws) == raws[0];
    } else {
      RoundedBounds(raws[1..]);
      RoundUpSplits(raws[0], Total(raws[1..]));
    }
  }

  function Raws(parts: seq<real>, price: real, terms: Terms): seq<real> {
    if parts == [] then [] else [TakerRaw(parts[0], price, terms)] + Raws(parts[1..], price, terms)
  }

  lemma TakerRawAdds(a: real, b: real, price: real, terms: Terms)
    ensures TakerRaw(a + b, price, terms) == TakerRaw(a, price, terms) + TakerRaw(b, price, terms)
  {
    Distribute(a, b, TakerFeePerContract(price, terms));
  }

  lemma Distribute(a: real, b: real, r: real)
    ensures (a + b) * r == a * r + b * r
  {
  }

  lemma {:induction false} RawsTotal(parts: seq<real>, price: real, terms: Terms)
    ensures |Raws(parts, price, terms)| == |parts|
    ensures Total(Raws(parts, price, terms)) == TakerRaw(Total(parts), price, terms)
  {
    if parts == [] {
      assert TakerRaw(0.0, price, terms) == 0.0;
    } else {
      RawsTotal(parts[1..], price, terms);
      TakerRawAdds(parts[0], Total(parts[1..]), price, terms);
    }
  }

  lemma {:induction false} RawsRounded(parts: seq<real>, price: real, terms: Terms)
    requires forall i :: 0 <= i < |parts| ==> parts[i] > 0.0
    ensures parts != [] ==> Total(parts) > 0.0
    ensures Rounded(Raws(parts, price, terms)) == SplitFees(parts, price, terms)
  {
    if parts != [] {
      RawsRounded(parts[1..], price, terms);
      TakerFeeIsRoundedRaw(parts[0], price, terms);
    }
  }

  /** Splitting an order into k positive fills costs at least the single-fill fee and less than k
      millionths more. */
  lemma SplittingCostsAtMostTheCeilings(parts: seq<real>, price: real, terms: Terms)
    requires parts != [] && forall i :: 0 <= i < |parts| ==> parts[i] > 0.0
    ensures var whole := TakerFee(Total(parts), price, terms);
            whole <= SplitFees(parts, price, terms) < whole + |parts| as real / MICRO
  {
    RawsTotal(parts, price, terms);
    RawsRounded(parts, price, terms);
    RoundedBounds(Raws(parts, price, terms));
    TakerFeeIsRoundedRaw(Total(parts), price, terms);
    RoundUpBounds(TakerRaw(Total(parts), price, terms));
  }

  /** A yes fill at p and the no fill on the other side of the book are charged alike. */
  lemma FeeSymmetric(contracts: real, price: real, terms: Terms)
    ensures TakerFee(contracts, price, terms) == TakerFee(contracts, 1.0 - price, terms)
    ensures MakerFee(contracts, price, terms) == MakerFee(contracts, 1.0 - price, terms)
  {
    var m := Multiplier(terms);
    ChargeSymmetric(TAKER_RATE, m, contracts, price);
    ChargeSymmetric(MAKER_RATE * 1.0, m, contracts, price);
    ChargeSymmetric(MAKER_RATE * 2.0, m, contracts, price);
  }

  lemma ChargeSymmetric(rate: real, m: real, n: real, price: real)
    ensures Charge(rate, m, n, price) == Charge(rate, m, n, 1.0 - price)
  {
    var other := 1.0 - price;
    assert price == 1.0 - other;
    Swap(rate * m * n, price, other);
  }

  lemma Swap(a: real, p: real, q: real)
    ensures a * p * q == a * q * p
  {
    assert a * p * q == a * (p * q);
    assert a * q * p == a * (q * p);
  }

  function Base(multiplier: real, contracts: real, price: real): real {
    multiplier * contracts * price * (1.0 - price)
  }

  lemma ChargeScales(rate: real, m: real, n: real, p: real)
    requires m >= 0.0 && n >= 0.0 && 0.0 <= p <= 1.0
    ensures Charge(rate, m, n, p) == rate * Base(m, n, p) && Base(m, n, p) >= 0.0
  {
    NonNegativeProduct(m, n);
    NonNegativeProduct(m * n, p);
    NonNegativeProduct(m * n * p, 1.0 - p);
    assert rate * m * n == rate * (m * n);
    assert rate * m * n * p == rate * (m * n * p);
  }

  lemma RatesCompare(low: real, high: real, m: real, n: real, p: real)
    requires 0.0 <= low <= high && m >= 0.0 && n >= 0.0 && 0.0 <= p <= 1.0
    ensures 0.0 <= RoundUp(Charge(low, m, n, p)) <= RoundUp(Charge(high, m, n, p))
  {
    ChargeScales(low, m, n, p);
    ChargeScales(high, m, n, p);
    Scale(low, high, Base(m, n, p));
    NonNegativeProduct(low, Base(m, n, p));
    RoundUpMonotone(Charge(low, m, n, p), Charge(high, m, n, p));
    RoundUpBounds(Charge(low, m, n, p));
  }

  /** Resting an order never costs more than taking, under every non-negative override and fee type. */
  lemma MakerNeverDearer(contracts: real, price: real, terms: Terms)
    requires NonNegative(terms)
    ensures 0.0 <= MakerFee(contracts, price, terms) <= TakerFee(contracts, price, terms)
  {
    if contracts > 0.0 && 0.0 < price < 1.0 {
      RatesCompare(MAKER_RATE * 1.0, TAKER_RATE, Multiplier(terms), contracts, price);
      RatesCompare(MAKER_RATE * 2.0, TAKER_RATE, Multiplier(terms), contracts, price);
    }
  }

  /** The least whole number of millionths of a dollar that covers an amount. */
  predicate LeastMicros(fee: real, amount: real) {
    (fee * MICRO).Floor as real == fee * MICRO && amount <= fee < amount + 0.000001
  }

  /** The taker schedule in dollars: 7 cents times contracts times p times 1 - p, times the override's multiplier
      if there is one and the series' otherwise, rounded up to a millionth; nothing off the price range or for no
      contracts. */
  lemma TakerSchedule(contracts: real, price: real, terms: Terms)
    ensures var m := if terms.overrideMultiplier.Some? then terms.overrideMultiplier.value else terms.seriesMultiplier;
            if contracts <= 0.0 || price <= 0.0 || price >= 1.0 then TakerFee(contracts, price, terms) == 0.0
            else LeastMicros(TakerFee(contracts, price, terms), 0.07 * m * contracts * price * (1.0 - price))
  {
    ChargeRounded(0.07, Multiplier(terms), contracts, price);
  }

  /** The maker schedule: a quarter of that, doubled where the event says so and nothing where the series is
      exempt. */
  lemma MakerSchedule(contracts: real, price: real, terms: Terms)
    ensures var m := if terms.overrideMultiplier.Some? then terms.overrideMultiplier.value else terms.seriesMultiplier;
            if contracts <= 0.0 || price <= 0.0 || price >= 1.0 || terms.makerExempt
            then MakerFee(contracts, price, terms) == 0.0
            else
              var rate := if terms.comboMakerFees then 0.035 else 0.0175;
              LeastMicros(MakerFee(contracts, price, terms), rate * m * contracts * price * (1.0 - price))
  {
    var rate := if terms.comboMakerFees then 0.035 else 0.0175;
    assert rate == MAKER_RATE * (if terms.comboMakerFees then 2.0 else 1.0);
    ChargeRounded(rate, Multiplier(terms), contracts, price);
  }

  lemma ChargeRounded(rate: real, m: real, contracts: real, price: real)
    ensures LeastMicros(if m == 0.0 then 0.0 else RoundUp(Charge(rate, m, contracts, price)),
                        rate * m * contracts * price * (1.0 - price))
  {
    if m == 0.0 {
      assert rate * m == 0.0;
      RoundedIsLeast(0.0);
    } else {
      RoundedIsLeast(Charge(rate, m, contracts, price));
    }
  }

  lemma RoundedIsLeast(amount: real)
    ensures LeastMicros(RoundUp(amount), amount)
  {
    RoundUpBounds(amount);
    assert RoundUp(amount) * MICRO == Ceiling(amount * MICRO) as real;
  }

  // ---- Exit quotes ----

  /** crossedAgainst is None when the caller says nothing, Some(None) when there is no bid to check. */
  function SellableQuote(side: Side, yesBid: Option<real>, yesAsk: Option<real>, crossedAgainst: Option<Option<real>>)
    : Option<real>
  {
    match side
    case Yes =>
      if yesBid.None? || yesBid.value <= 0.0 || yesBid.value >= 1.0 then None else yesBid
    case No =>
      if yesAsk.None? || yesAsk.value >= 1.0 || yesAsk.value <= 0.0 then None
      else
        var bid := if crossedAgainst.Some? then crossedAgainst.value else yesBid;
        if bid.Some? && yesAsk.value < bid.value then None else yesAsk
  }

  function ForcedExitQuote(side: Side, yesBid: Option<real>, yesAsk: Option<real>, unknownFallback: real): real {
    match side
    case No =>
      if yesAsk.None? then unknownFallback
      else if yesAsk.value >= 1.0 then 1.0
      else if yesAsk.value <= 0.0 then unknownFallback
      else if yesBid.Some? && yesAsk.value < yesBid.value then unknownFallback
      else yesAsk.value
    case Yes =>
      if yesBid.None? then unknownFallback
      else if yesBid.value <= 0.0 then 0.0
      else if yesBid.value >= 1.0 then unknownFallback
      else yesBid.value
  }

  /** When an open position can be sold, and at what YES price: YES at an inside bid, NO at an inside ask that
      does not cross the bid it is checked against, which is the YES bid unless the caller names another. */
  lemma SellableExactlyWhen(side: Side, yesBid: Option<real>, yesAsk: Option<real>, crossedAgainst: Option<Option<real>>, q: real)
    ensures SellableQuote(Yes, yesBid, yesAsk, crossedAgainst) == Some(q) <==> yesBid == Some(q) && 0.0 < q < 1.0
    ensures SellableQuote(No, yesBid, yesAsk, None) == Some(q)
            <==> yesAsk == Some(q) && 0.0 < q < 1.0 && (yesBid.Some? ==> yesBid.value <= q)
    ensures crossedAgainst.Some? ==>
              (SellableQuote(No, yesBid, yesAsk, crossedAgainst) == Some(q)
               <==> yesAsk == Some(q) && 0.0 < q < 1.0 && (crossedAgainst.value.Some? ==> crossedAgainst.value.value <= q))
  {
  }

  /** The book says outright that nobody will buy this side. */
  predicate EmptyBook(side: Side, yesBid: Option<real>, yesAsk: Option<real>) {
    match side
    case Yes => yesBid.Some? && yesBid.value <= 0.0
    case No => yesAsk.Some? && yesAsk.value >= 1.0
  }

  /** A forced exit is the sellable quote when there is one, zero proceeds on an empty book, and the
      fallback in every other case. */
  lemma ForcedExitCases(side: Side, yesBid: Option<real>, yesAsk: Option<real>, fallback: real)
    ensures var quote := SellableQuote(side, yesBid, yesAsk, None);
            var forced := ForcedExitQuote(side, yesBid, yesAsk, fallback);
            && (quote.Some? ==> forced == quote.value)
            && (EmptyBook(side, yesBid, yesAsk) ==> quote.None? && UnitCost(side, forced) == 0.0)
            && (quote.None? && !EmptyBook(side, yesBid, yesAsk) ==> forced == fallback)
  {
  }

  /** No quote pays a dollar a contract, or less than nothing: only a fallback at an end of the price
      range can. */
  lemma NeverADollarPerContract(side: Side, yesBid: Option<real>, yesAsk: Option<real>, fallback: real)
    requires 0.0 < fallback < 1.0
    ensures 0.0 <= UnitCost(side, ForcedExitQuote(side, yesBid, yesAsk, fallback)) < 1.0
    ensures forall quote :: SellableQuote(side, yesBid, yesAsk, None) == Some(quote) ==> 0.0 < UnitCost(side, quote) < 1.0
  {
  }
}
