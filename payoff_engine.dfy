/** The payoff and risk engine: maximum profit, chance of profit, estimated
    margin and the profit/loss curve of one option leg, plus the net
    debit/credit tag shown beside them. Prices are exact reals: per-share
    strike, per-share premium and underlying prices. */
module PayoffEngine {
  import opened Strategies
  import opened Sorting

  /** Shares per contract. */
  const ContractMultiplier: real := 100.0
  /** Contracts held by the position. */
  const ContractCount: real := 1.0
  /** Share of the notional held as margin by a short position. */
  const MarginRate: real := 0.1

  /** Maximum profit: a finite amount or the "unlimited" sentinel. */
  datatype ProfitCap = Unlimited | Capped(amount: real)

  /** A figure, or the "N/A" sentinel for an unrecognised strategy. */
  datatype Reported<T> = Known(value: T) | NotApplicable

  /** The net premium flow of opening the position; `NoFlow` is the empty
      label shown for an unrecognised strategy. */
  datatype NetFlow = NetDebit(amount: real) | NetCredit(amount: real) | NoFlow

  /** `max(x, 0)`: the intrinsic part of a call or put. */
  function Positive(x: real): (r: real)
    ensures r >= 0.0 && r >= x
    ensures r == x || r == 0.0
  {
    if x > 0.0 then x else 0.0
  }

  /** Maximum profit of the position; the long put uses the current spot. */
  function MaxProfit(s: Strategy, premium: real, strike: real, spot: real): (r: ProfitCap)
    ensures r == Unlimited <==> s == LongCall
    ensures s == LongPut ==> r == Capped(PayoffAt(LongPut, strike, premium, spot))
    ensures IsShort(s) ==> r == Capped(PayoffAt(s, strike, premium, strike))
    ensures IsShort(s) ==> forall price :: PayoffAt(s, strike, premium, price) <= r.amount
    ensures s == Other ==> r == Capped(0.0)
  {
    match s
    case LongCall => Unlimited
    case ShortCall => Capped(premium)
    case LongPut => Capped(Positive(strike - spot) - premium)
    case ShortPut => Capped(premium)
    case Other => Capped(0.0)
  }

  /** Chance of profit, in percent: a fixed placeholder per strategy group. */
  function ChanceOfProfit(s: Strategy): (r: Reported<nat>)
    ensures r.Known? <==> !s.Other?
    ensures r.Known? ==> r.value == 50
  {
    if s == LongCall || s == ShortPut then Known(50)
    else if s == LongPut || s == ShortCall then Known(50)
    else NotApplicable
  }

  /** Estimated margin: the premium plus a flat share of the notional for a
      short position, the premium alone for a long one. */
  function EstimatedMargin(s: Strategy, premium: real, strike: real): (r: Reported<real>)
    ensures r.Known? <==> !s.Other?
    ensures IsLong(s) ==> r.value == premium
    ensures IsShort(s) ==> r.value == premium + 10.0 * strike
    ensures IsShort(s) && strike > 0.0 ==> r.value > premium
  {
    if s == ShortPut || s == ShortCall then
      Known(premium + MarginRate * strike * ContractMultiplier * ContractCount)
    else if s == LongCall || s == LongPut then Known(premium)
    else NotApplicable
  }

  /** Per-share profit or loss at expiry when the underlying is at `price`. */
  function PayoffAt(s: Strategy, strike: real, premium: real, price: real): (r: real)
    ensures IsLong(s) ==> r >= -premium
    ensures IsShort(s) ==> r <= premium
    ensures s != Other && OutOfTheMoney(s, strike, price) ==> r == if IsLong(s) then -premium else premium
    ensures s == Other ==> r == 0.0
  {
    match s
    case LongCall => Positive(price - strike) - premium
    case ShortCall => premium - Positive(price - strike)
    case LongPut => Positive(strike - price) - premium
    case ShortPut => premium - Positive(strike - price)
    case Other => 0.0
  }

  /** The payoff curve over a sweep of underlying prices: one point per
      price, in the sweep's order, each depending on its own price only. */
  function PayoffCurve(s: Strategy, strike: real, premium: real, prices: seq<real>): (curve: seq<real>)
    ensures |curve| == |prices|
    ensures forall i :: 0 <= i < |prices| ==> curve[i] == PayoffAt(s, strike, premium, prices[i])
  {
    if prices == [] then []
    else [PayoffAt(s, strike, premium, prices[0])] + PayoffCurve(s, strike, premium, prices[1..])
  }

  /** The debit or credit tag of the position, carrying the premium. */
  function NetDebitOrCredit(s: Strategy, premium: real): (r: NetFlow)
    ensures r.NetDebit? <==> IsLong(s)
    ensures r.NetCredit? <==> IsShort(s)
    ensures r == NoFlow <==> s == Other
    ensures !r.NoFlow? ==> r.amount == premium
  {
    if s == LongCall || s == LongPut then NetDebit(premium)
    else if s == ShortCall || s == ShortPut then NetCredit(premium)
    else NoFlow
  }

  // ---------------------------------------------------------------------
  // Payoff curve

  /** An unrecognised strategy gives a flat zero curve of the sweep's length;
      an empty sweep gives an empty curve for every strategy. */
  lemma UnknownCurveIsFlatZero(strike: real, premium: real, prices: seq<real>)
    ensures |PayoffCurve(Other, strike, premium, prices)| == |prices|
    ensures forall i :: 0 <= i < |prices| ==> PayoffCurve(Other, strike, premium, prices)[i] == 0.0
    ensures forall s :: PayoffCurve(s, strike, premium, []) == []
  {
  }

  /** Long/short symmetry: for equal strike and premium, the short call's
      curve is the long call's negated, and the short put's the long put's. */
  lemma ShortNegatesLong(strike: real, premium: real, prices: seq<real>)
    ensures PayoffCurve(ShortCall, strike, premium, prices) == Negated(PayoffCurve(LongCall, strike, premium, prices))
    ensures PayoffCurve(ShortPut, strike, premium, prices) == Negated(PayoffCurve(LongPut, strike, premium, prices))
  {
  }

  /** Every point negated. */
  function Negated(xs: seq<real>): (ys: seq<real>)
    ensures |ys| == |xs|
    ensures forall i :: 0 <= i < |xs| ==> ys[i] == -xs[i]
  {
    if xs == [] then [] else [-xs[0]] + Negated(xs[1..])
  }

  /** The long call never loses more than the premium, loses exactly the
      premium at or below the strike, and gains with the underlying. */
  lemma LongCallShape(strike: real, premium: real, p: real, q: real)
    ensures PayoffAt(LongCall, strike, premium, p) >= -premium
    ensures p <= strike ==> PayoffAt(LongCall, strike, premium, p) == -premium
    ensures p <= q ==> PayoffAt(LongCall, strike, premium, p) <= PayoffAt(LongCall, strike, premium, q)
  {
  }

  /** The long put never loses more than the premium, loses exactly the
      premium at or above the strike, and gains as the underlying falls. */
  lemma LongPutShape(strike: real, premium: real, p: real, q: real)
    ensures PayoffAt(LongPut, strike, premium, p) >= -premium
    ensures p >= strike ==> PayoffAt(LongPut, strike, premium, p) == -premium
    ensures p <= q ==> PayoffAt(LongPut, strike, premium, p) >= PayoffAt(LongPut, strike, premium, q)
  {
  }

  /** Over an ascending sweep, the long call curve is ascending. */
  lemma LongCallCurveAscending(strike: real, premium: real, prices: seq<real>)
    requires Sorted(prices)
    ensures Sorted(PayoffCurve(LongCall, strike, premium, prices))
  {
    var curve := PayoffCurve(LongCall, strike, premium, prices);
    forall i, j | 0 <= i < j < |curve|
      ensures curve[i] <= curve[j]
    {
      LongCallShape(strike, premium, prices[i], prices[j]);
    }
  }

  // ---------------------------------------------------------------------
  // Maximum profit

  /** The long call's maximum profit is unlimited whatever the inputs, and
      indeed its payoff exceeds every bound at some underlying price. */
  lemma LongCallUnbounded(premium: real, strike: real, spot: real, bound: real)
    ensures MaxProfit(LongCall, premium, strike, spot) == Unlimited
    ensures exists price :: PayoffAt(LongCall, strike, premium, price) > bound
  {
    var price := strike + Positive(bound + premium) + 1.0;
    assert PayoffAt(LongCall, strike, premium, price) > bound;
  }

  /** A short position's maximum profit is the premium received, which
      bounds its whole payoff curve and is reached at the strike. */
  lemma ShortMaxProfitIsPeak(s: Strategy, premium: real, strike: real, spot: real, prices: seq<real>)
    requires IsShort(s)
    ensures MaxProfit(s, premium, strike, spot) == Capped(premium)
    ensures forall i :: 0 <= i < |prices| ==> PayoffCurve(s, strike, premium, prices)[i] <= premium
    ensures PayoffAt(s, strike, premium, strike) == premium
  {
  }

  /** The long put's maximum profit is its payoff at the current spot. */
  lemma LongPutMaxProfitAtSpot(premium: real, strike: real, spot: real)
    ensures MaxProfit(LongPut, premium, strike, spot) == Capped(PayoffAt(LongPut, strike, premium, spot))
  {
  }

  /** Because it is taken at the current spot, the long put's maximum profit
      never exceeds the payoff at an underlying price of zero, and falls
      short of it whenever the spot is above zero and the strike is too. */
  lemma LongPutMaxProfitUnderstates(premium: real, strike: real, spot: real)
    requires spot >= 0.0
    ensures MaxProfit(LongPut, premium, strike, spot).amount <= PayoffAt(LongPut, strike, premium, 0.0)
    ensures spot > 0.0 && strike > 0.0 ==>
      MaxProfit(LongPut, premium, strike, spot).amount < PayoffAt(LongPut, strike, premium, 0.0)
  {
    LongPutShape(strike, premium, 0.0, spot);
  }

  /** An unrecognised strategy reports a maximum profit of zero. */
  lemma UnknownMaxProfit(premium: real, strike: real, spot: real)
    ensures MaxProfit(Other, premium, strike, spot) == Capped(0.0)
  {
  }

  // ---------------------------------------------------------------------
  // Chance of profit and margin

  /** The chance of profit is 50% for each recognised strategy and "N/A"
      otherwise; it takes no price input at all. */
  lemma ChanceIsPlaceholder(s: Strategy)
    ensures s != Other ==> ChanceOfProfit(s) == Known(50)
    ensures s == Other ==> ChanceOfProfit(s) == NotApplicable
  {
  }

  /** A long position's margin is its premium, whatever the strike; a short
      position's is the premium plus ten per cent of one contract's notional
      (10 × strike), strictly more than the premium for a positive strike. */
  lemma MarginRule(s: Strategy, premium: real, strike: real)
    ensures IsLong(s) ==> EstimatedMargin(s, premium, strike) == Known(premium)
    ensures IsShort(s) ==> EstimatedMargin(s, premium, strike) == Known(premium + 10.0 * strike)
    ensures IsShort(s) && strike > 0.0 ==> EstimatedMargin(s, premium, strike).value > premium
    ensures s == Other ==> EstimatedMargin(s, premium, strike) == NotApplicable
  {
  }

  // ---------------------------------------------------------------------
  // Net debit / credit

  /** Long positions are a debit and short ones a credit of the premium; the
      tag is empty for an unrecognised strategy. A long position's margin is
      exactly its debit. */
  lemma NetFlowRule(s: Strategy, premium: real, strike: real)
    ensures NetDebitOrCredit(s, premium).NetDebit? <==> IsLong(s)
    ensures NetDebitOrCredit(s, premium).NetCredit? <==> IsShort(s)
    ensures NetDebitOrCredit(s, premium) == NoFlow <==> s == Other
    ensures !NetDebitOrCredit(s, premium).NoFlow? ==> NetDebitOrCredit(s, premium).amount == premium
    ensures IsLong(s) ==> EstimatedMargin(s, premium, strike) == Known(NetDebitOrCredit(s, premium).amount)
  {
  }

  /** The option expires worthless at `price`. */
  predicate OutOfTheMoney(s: Strategy, strike: real, price: real)
  {
    if s == LongCall || s == ShortCall then price <= strike else price >= strike
  }

  /** When the option expires worthless, the position's profit is just its
      opening flow: minus the debit paid, or the credit received. */
  lemma WorthlessExpiryKeepsNetFlow(s: Strategy, strike: real, premium: real, price: real)
    requires s != Other && OutOfTheMoney(s, strike, price)
    ensures NetDebitOrCredit(s, premium).NetDebit? ==>
      PayoffAt(s, strike, premium, price) == -NetDebitOrCredit(s, premium).amount
    ensures NetDebitOrCredit(s, premium).NetCredit? ==>
      PayoffAt(s, strike, premium, price) == NetDebitOrCredit(s, premium).amount
  {
  }

  // ---------------------------------------------------------------------
  // Worked example: strike 100, premium 5

  /** The four curves over the sweep 90, 95, 100, 105, 110, and the metrics
      that accompany them. */
  lemma WorkedExample()
    ensures PayoffCurve(LongCall, 100.0, 5.0, [90.0, 95.0, 100.0, 105.0, 110.0]) == [-5.0, -5.0, -5.0, 0.0, 5.0]
    ensures PayoffCurve(ShortCall, 100.0, 5.0, [90.0, 95.0, 100.0, 105.0, 110.0]) == [5.0, 5.0, 5.0, 0.0, -5.0]
    ensures PayoffCurve(LongPut, 100.0, 5.0, [90.0, 95.0, 100.0, 105.0, 110.0]) == [5.0, 0.0, -5.0, -5.0, -5.0]
    ensures PayoffCurve(ShortPut, 100.0, 5.0, [90.0, 95.0, 100.0, 105.0, 110.0]) == [-5.0, 0.0, 5.0, 5.0, 5.0]
    ensures EstimatedMargin(LongCall, 5.0, 100.0) == Known(5.0)
    ensures EstimatedMargin(ShortCall, 5.0, 100.0) == Known(1005.0)
    ensures EstimatedMargin(ShortPut, 5.0, 100.0) == Known(1005.0)
  {
    var sweep := [90.0, 95.0, 100.0, 105.0, 110.0];
    CurveFromPoints(LongCall, 100.0, 5.0, sweep, [-5.0, -5.0, -5.0, 0.0, 5.0]);
    CurveFromPoints(ShortCall, 100.0, 5.0, sweep, [5.0, 5.0, 5.0, 0.0, -5.0]);
    CurveFromPoints(LongPut, 100.0, 5.0, sweep, [5.0, 0.0, -5.0, -5.0, -5.0]);
    CurveFromPoints(ShortPut, 100.0, 5.0, sweep, [-5.0, 0.0, 5.0, 5.0, 5.0]);
  }

  /** A curve is determined by its points. */
  lemma CurveFromPoints(s: Strategy, strike: real, premium: real, prices: seq<real>, expected: seq<real>)
    requires |expected| == |prices|
    requires forall i :: 0 <= i < |prices| ==> expected[i] == PayoffAt(s, strike, premium, prices[i])
    ensures PayoffCurve(s, strike, premium, prices) == expected
  {
  }
}
