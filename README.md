# Option strategy viewer: payoff and risk engine

This project models the domain logic of a small Streamlit viewer for
single-leg option strategies (Long Call, Short Call, Long Put, Short Put),
and proves properties of that model in Dafny. The logic consists of:

- **The payoff and risk engine.** This is four pure functions. `MaxProfit`
  gives the maximum profit, or the sentinel `Unlimited` ("Ilimitado") for a
  long call. `ChanceOfProfit` gives a fixed 50% placeholder. `EstimatedMargin`
  gives the premium, plus 10% of one contract's notional (strike × 100 × 1)
  for a short position. `PayoffCurve` gives the profit/loss at expiry over a
  sweep of underlying prices. Each function falls through to a default for an
  unrecognised strategy: a maximum profit of 0, "N/A" (`NotApplicable`), or a
  flat zero curve.
- **The net debit/credit tag.** A long position is a debit of the premium and
  a short one is a credit (`NetDebitOrCredit`).
- **The strike window.** The chain's strikes are sorted. The 20 nearest
  strikes strictly above the spot and the 20 nearest strictly below it are
  taken (the lower side through `reversed`), then merged and sorted again
  (`StrikeWindow.Window`).
- **The expiration label.** The label `"<days>d (<date>)"` is built, and the
  chosen one is parsed back with `split(' ')[1].strip('()')`
  (`ExpirationLabel.Label`, `ExpirationLabel.SelectedExpiration`). Python's
  `str(int)`, `str.split` and `str.strip` are modelled literally.

Strategies are a datatype with the four variants plus `Other`.
`Strategies.Classify` models the exact string comparisons the application
makes on strategy names. Prices are exact `real`s. Every engine function is
total, and lemmas relate the functions to one another.

The code falls through to a default for an unrecognised strategy name (0,
"N/A", "N/A", a list of zeros, an empty tag). The model keeps this as `Other`.

The long put's maximum profit is taken at the current spot instead of at an
underlying price of zero. The model keeps this as written and states the gap
in `PayoffEngine.LongPutMaxProfitUnderstates`.

Modules:
- `Strategies` (strategies.dfy): the strategy names.
- `PayoffEngine` (payoff_engine.dfy): the engine and the debit/credit tag.
- `Sorting` (sorting.dfy): `sorted`, `reversed` and slicing on price lists.
- `StrikeWindow` (strike_window.dfy): the strike window.
- `ExpirationLabel` (expiration_label.dfy): the expiration label format and parse.

## Model

| member | source | states |
|---|---|---|
| Strategies.Classify | streamlit_app.py:8-15 | a name is recognised exactly when it is one of the four menu names, and the recognised strategy names back to it (see also `ClassifyRecognisesMenu`) |
| Strategies.ClassifyName | streamlit_app.py:8-15 | naming a recognised strategy and comparing the name as the engine does recovers that strategy |
| Strategies.ClassifyRecognisesMenu | streamlit_app.py:80 | a name is recognised exactly when it is one of the four menu entries, and then names back to itself |
| Strategies.LongOrShort | streamlit_app.py:101-104 | every recognised strategy is long or short and never both; only `Other` is neither |
| PayoffEngine.MaxProfit | streamlit_app.py:7-16 | `Unlimited` exactly for the long call; the long put's figure is its payoff at the spot; a short position's is its payoff at the strike and bounds its payoff at every price; 0 for an unknown name |
| PayoffEngine.ChanceOfProfit | streamlit_app.py:18-23 | a figure exactly for a recognised strategy, and that figure is 50 (%) |
| PayoffEngine.EstimatedMargin | streamlit_app.py:25-30 | a figure exactly for a recognised strategy: the premium when long, premium + 10 × strike when short (more than the premium when strike > 0) |
| PayoffEngine.PayoffAt | streamlit_app.py:33-41 | long payoffs never fall below -premium and short ones never exceed premium; out of the money the payoff is -premium (long) or premium (short); 0 for an unknown name |
| PayoffEngine.PayoffCurve | streamlit_app.py:32-41 | the curve has one point per sweep price, in order, point i depending only on price i |
| PayoffEngine.UnknownCurveIsFlatZero | streamlit_app.py:41 | an unrecognised strategy gives zeros of the sweep's length; an empty sweep gives an empty curve for every strategy |
| PayoffEngine.ShortNegatesLong | streamlit_app.py:34-40 | for equal strike and premium, short call = negated long call and short put = negated long put, over every sweep |
| PayoffEngine.LongCallShape | streamlit_app.py:34 | long call payoff is at least -premium, exactly -premium at or below the strike, nondecreasing in price |
| PayoffEngine.LongPutShape | streamlit_app.py:38 | long put payoff is at least -premium, exactly -premium at or above the strike, nonincreasing in price |
| PayoffEngine.LongCallCurveAscending | streamlit_app.py:34 | over an ascending sweep the long call curve is ascending |
| PayoffEngine.LongCallUnbounded | streamlit_app.py:8-9 | the long call's max profit is `Unlimited` whatever premium, strike and spot, and its payoff exceeds every bound at some price |
| PayoffEngine.ShortMaxProfitIsPeak | streamlit_app.py:10-15 | short call/put max profit is the premium, bounds every point of the curve, and is reached at the strike |
| PayoffEngine.LongPutMaxProfitAtSpot | streamlit_app.py:12-13 | the long put's max profit is its payoff evaluated at the current spot |
| PayoffEngine.LongPutMaxProfitUnderstates | streamlit_app.py:13 | for a non-negative spot that figure is at most the payoff at price zero, and strictly less for positive spot and strike |
| PayoffEngine.UnknownMaxProfit | streamlit_app.py:16 | an unrecognised strategy reports a max profit of 0 |
| PayoffEngine.ChanceIsPlaceholder | streamlit_app.py:18-23 | chance of profit is 50% for each recognised strategy and "N/A" otherwise, with no price input |
| PayoffEngine.MarginRule | streamlit_app.py:25-30 | margin is the premium for long positions, premium + 10 × strike for short ones (more than the premium when strike > 0), "N/A" otherwise |
| PayoffEngine.NetFlowRule | streamlit_app.py:101-104 | debit exactly for long, credit exactly for short, empty tag exactly for unknown, amount = premium; a long margin equals its debit |
| PayoffEngine.WorthlessExpiryKeepsNetFlow | streamlit_app.py:34-40 | when the option expires worthless the payoff is minus the debit paid or the credit received |
| PayoffEngine.WorkedExample | streamlit_app.py:25-41 | strike 100, premium 5, sweep 90..110: the four curves and the margins 5 and 1005 |
| PayoffEngine.NetDebitOrCredit | streamlit_app.py:101-104 | a debit exactly for a long position, a credit exactly for a short one, the empty tag exactly for an unknown name; the amount is the premium |
| Sorting.Sort | streamlit_app.py:75 | `sorted` returns an ascending permutation of its input |
| Sorting.SortedPermutationUnique | streamlit_app.py:78 | two ascending permutations of the same prices are equal |
| Sorting.Take | streamlit_app.py:76-77 | `[:n]` is the prefix of length min(n, len) |
| Sorting.Reverse | streamlit_app.py:77 | `reversed` puts element i at position n-1-i |
| Sorting.ReversePermutes | streamlit_app.py:77 | reversing keeps the same multiset of prices |
| StrikeWindow.StrictlyAbove | streamlit_app.py:76 | the filter keeps exactly the strikes above the spot |
| StrikeWindow.StrictlyBelow | streamlit_app.py:77 | the filter keeps exactly the strikes below the spot |
| StrikeWindow.Window | streamlit_app.py:75-78 | the offered strikes are ascending and at most 40 |
| StrikeWindow.NearestBelow | streamlit_app.py:77 | the kept lower strikes are at most 20 strikes of the list, all below the spot |
| StrikeWindow.NearestAbove | streamlit_app.py:76 | the kept upper strikes are at most 20 strikes of the list, all above the spot |
| StrikeWindow.WindowShape | streamlit_app.py:75-78 | the window equals the last ≤20 sorted strikes below the spot followed by the first ≤20 above it |
| StrikeWindow.WindowAboveSide | streamlit_app.py:76 | the window's strikes above the spot are exactly the first ≤20 above it |
| StrikeWindow.WindowBelowSide | streamlit_app.py:77 | the window's strikes below the spot are exactly the last ≤20 below it |
| StrikeWindow.NearestAboveKept | streamlit_app.py:76 | an omitted strike above the spot is no lower than any kept one, and then 20 are kept above |
| StrikeWindow.NearestBelowKept | streamlit_app.py:77 | an omitted strike below the spot is no higher than any kept one, and then 20 are kept below |
| StrikeWindow.WindowFromChain | streamlit_app.py:75-78 | every offered strike is a chain strike and differs from the spot |
| ExpirationLabel.NatToDecimal | streamlit_app.py:69 | the day count is written as decimal digits without leading zeros |
| ExpirationLabel.IntToString | streamlit_app.py:69 | the day count text is non-empty and contains no space or parenthesis |
| ExpirationLabel.IntRoundTrip | streamlit_app.py:69 | the formatted day count reads back as the same integer |
| ExpirationLabel.Split | streamlit_app.py:73 | `split(' ')` yields at least one piece, no piece contains the separator, and there are two or more pieces exactly when the separator occurs |
| ExpirationLabel.JoinSplit | streamlit_app.py:73 | joining the pieces with the separator gives back the original string |
| ExpirationLabel.SplitTwo | streamlit_app.py:73 | two space-free parts joined by one space split into exactly those two parts |
| ExpirationLabel.StripLeading | streamlit_app.py:73 | left strip removes a prefix of stripped characters and leaves no stripped character first |
| ExpirationLabel.StripTrailing | streamlit_app.py:73 | right strip removes a suffix of stripped characters and leaves no stripped character last |
| ExpirationLabel.Strip | streamlit_app.py:73 | `strip` keeps only characters of its input and leaves no stripped character at either end |
| ExpirationLabel.Label | streamlit_app.py:69 | the label is four characters longer than the day count and the date together, always holds a space (so the parse has a second piece), and ends with `)` |
| ExpirationLabel.SelectedExpiration | streamlit_app.py:73 | a date is selected exactly when the label holds a space; it holds no space and no parenthesis at either end |
| ExpirationLabel.StripParenthesised | streamlit_app.py:73 | stripping `()` from a parenthesised date without edge parentheses gives the date |
| ExpirationLabel.ExpirationRoundTrip | streamlit_app.py:69-73 | for any day count and any date without spaces or edge parentheses, parsing the label returns the date |
| ExpirationLabel.SpacedDateIsTruncated | streamlit_app.py:69-73 | a date with a space is cut at its first space, whatever follows, so the no-space condition is needed |

## Left out

- Market data from yfinance is not modelled: the ticker, the last close, the expirations and the option chain (streamlit_app.py:62-74, 87-99). This is network I/O through an external library. The spot, the chain strikes, the premium and the day count are parameters instead.
- The premium and theta lookup by strike in the chain, and the default premium of 0 when no row matches (streamlit_app.py:83-99), are not modelled. This is pandas data plumbing.
- The Streamlit widgets and layout, the DataFrame summary and the Plotly chart with its padded reference lines (streamlit_app.py:44-58, 110-158) are not modelled. They are presentation only.
- `datetime.now()` and the `strptime` day arithmetic (streamlit_app.py:69) depend on the clock. `days` is an integer input instead.
- The `$…:.2f` money formatting is not modelled; only the debit/credit tag and its amount are.
- Prices are exact reals. IEEE float rounding is not modelled, so `0.1 × strike × 100` is exactly `10 × strike` here.
- Building the sweep from `int(spot × 0.5)` to `int(spot × 1.5)` (streamlit_app.py:128) is not modelled. The sweep is a given `seq<real>`.
- The `except Exception` handler (streamlit_app.py:119-120) is not modelled. A label without a space, where `[1]` would raise, gives `None` from `SelectedExpiration`.
