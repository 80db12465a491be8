# Budget dashboard arithmetic, modelled in Dafny

The dashboard in `wage_explore.py` lets a user pick a year, a number of
miles to drive (on a slider captioned as figured at 25 mpg) and a number of
meals with chicken. It then shows how much of that year's average monthly
household income those purchases take and how much is left as savings, as a
stacked "Monthly Budget Breakdown" bar. This project models the computation
behind that bar and proves its properties:

- `tables.dfy`, module `Tables`: the year-keyed lookups with a zero fallback.
  - `get_starting_amount` gives the monthly income.
  - `cost_per_mile` gives the gas price spread over 25 miles per gallon.
  - `cost_per_meal` gives the chicken price spread over 3 meals per pound.
  - A data frame column is a sequence of `(year, value)` rows. A selection
    followed by `.iloc[0]` is "the value of the first row with that year".
  - The frames are passed in as a `Frames` value instead of being read from
    module globals.
- `bar_chart.dfy`, module `BarChart`: how `make_bar` orders the bar segments
  and computes their percentages.
  - The order is Python's stable `sorted(..., reverse=True)`, written as an
    insertion sort on indices.
  - Lemma `SortedIndicesUnique` shows that no other index order is both
    ordered that way and a permutation of the indices. So the model agrees
    with Python's `sorted`, whatever algorithm that uses.
- `budget.dfy`, module `Budget`: the arithmetic of `update_bar` (total
  expense, savings, expense and savings percentages) and the bar it draws.
- `results.dfy`, module `Results`: the `Option` and `Result` types.
  - An error result stands for an exception the Python code would raise:
    an empty `.iloc[0]` selection, an out-of-range label index, or a
    division by a zero total in `make_bar`.
  - One error result stands in for a value the code computes but exact
    reals cannot express: a monthly income of 0 in `update_bar` (see the
    `Budget.Allocate` line under "## Left out").

The money and percentage arithmetic is over Dafny `real`, so there is no
floating-point rounding.

What `wage_explore.py` computes, and the model with it:
- The expense share is taken of the whole monthly income.
- A year with no chicken or gas price row raises IndexError (`.iloc[0]` on
  an empty selection).
- The expense share is capped at 100 and the savings share is
  `max(0, 100 - expense)`.
- `cost_per_meal` reads the chicken price column of the *gas* frame, as the
  code does (`Frames.gasChickenPrice`).
- `cost_per_mile` and `cost_per_meal` are defined but are not called from
  `update_bar`. `update_bar` looks up the raw prices itself.
- `update_bar` receives the miles value as `gas_gallons` and the meals value
  as `chicken_lbs`. So the miles are priced as gallons and the meals as
  pounds: each slider value is multiplied by the raw price per gallon or per
  pound. The model's `Budget.Allocate` takes the two values the same way.

## Model

| member | source | states |
|---|---|---|
| `Tables.FirstMatch` | wage_explore.py:44-46 | The result is the position of the first row whose year is the selected year. It is `None` exactly when no row has that year. |
| `Tables.Lookup` | wage_explore.py:44-46 | `.loc[...].iloc[0]` gives the value of the first row with the year. It is absent exactly when the selection is empty. |
| `Tables.StartingAmount` | wage_explore.py:43-48 | The result is the first matching income divided by 12, or 0 for an absent year. It is nonnegative when all incomes are. |
| `Tables.CostPerMile` | wage_explore.py:50-57 | The result is the first matching gas price divided by 25, or 0 for an absent year. It is nonnegative when all prices are. |
| `Tables.CostPerMeal` | wage_explore.py:59-66 | The result is the first matching value of the gas frame's chicken column divided by 3, or 0 for an absent year. It is nonnegative when all values are. |
| `Tables.LookupConcat` | wage_explore.py:44-46 | Only the first occurrence of a year counts. A lookup in rows `a` followed by rows `b` finds the year in `a` when `a` has it, and otherwise in `b`. |
| `Tables.LookupUniqueYear` | wage_explore.py:44-46 | When each year occurs once, a lookup returns exactly that year's row value. |
| `BarChart.Insert` | wage_explore.py:125 | Insertion keeps an index sequence in stable descending order. It adds exactly the new index. |
| `BarChart.SortedPrefix` | wage_explore.py:125 | The indices `0..k-1` come out ordered, each exactly once. |
| `BarChart.SortedIndices` | wage_explore.py:125 | `sorted(range(n), key=..., reverse=True)` is a permutation of `0..n-1`. It is ordered by value, descending, with ties in index order. |
| `BarChart.OrderedUnique` | wage_explore.py:125 | Two ordered index sequences of the same length, holding the same indices, are equal. |
| `BarChart.SortedIndicesUnique` | wage_explore.py:125 | Any ordered permutation of the indices is the `SortedIndices` result. This is the reference for Python's sort. |
| `BarChart.SortedDescendingStable` | wage_explore.py:125-126 | The reordered values are non-increasing. Equal values keep their original index order. |
| `BarChart.Sum` | wage_explore.py:130 | Python's `sum`, a fold over the values starting from 0. `SumIsPythonSum`, `SumConcat` and `SumPermuted` are proved about it. |
| `BarChart.SumFromShift` | wage_explore.py:130 | In Python's left-to-right adding loop, a starting total can be taken out and added at the end. |
| `BarChart.SumIsPythonSum` | wage_explore.py:130 | `Sum` equals Python's loop that adds the values left to right from 0. |
| `BarChart.Permute` | wage_explore.py:126-128 | `[xs[i] for i in idx]` has the length of `idx`. Element `k` is `xs[idx[k]]`. |
| `BarChart.Percentages` | wage_explore.py:131 | Each percentage times the total equals its value times 100. |
| `BarChart.Bar` | wage_explore.py:125-131 | It is an IndexError exactly when there are more values than labels. Otherwise it is a ZeroDivisionError exactly when the values are non-empty and sum to 0. Otherwise segment `k` carries the label and the value at original position `idx[k]`, and its percentage of the input's total. |
| `BarChart.MakeBar` | wage_explore.py:123-131 | It fails exactly when more than 3 values are given, or when some values are given and they sum to 0. Otherwise it is the bar with the fixed three-label list. |
| `BarChart.SumPermuted` | wage_explore.py:125-130 | The total of the reordered values equals the sum of the input. |
| `BarChart.SumPercentages` | wage_explore.py:130-131 | The percentages sum to the sum of their values, divided by the total and times 100. |
| `BarChart.BarPercentagesSumTo100` | wage_explore.py:130-131 | The percentages of a non-empty drawn bar sum to 100. |
| `BarChart.BarPercentagesInRange` | wage_explore.py:130-131 | With nonnegative values, every percentage lies in [0, 100]. |
| `BarChart.BarPairsWithLabels` | wage_explore.py:126-128 | Every input value is drawn beside the label of its original position, and its index holds exactly one position of the drawing order. |
| `BarChart.BarDescending` | wage_explore.py:125-126 | The segments are non-increasing in value. |
| `BarChart.PairOrder` | wage_explore.py:125 | Two values keep their order unless the second is strictly larger. |
| `BarChart.BarOfPair` | wage_explore.py:125-131 | Spells out the bar over two values with a nonzero total, segment by segment. |
| `Budget.Allocate` | wage_explore.py:343-358 | Errors, in the order the code raises them: no chicken row for the year, then no gas row, then a monthly income of 0. On success: the income is the starting amount; the total expense is `lbs * first chicken price + gallons * first gas price`; savings is `max(0, income - expense)`, never negative; the expense share is `min(100, expense / income * 100)`; the savings share is at least 0 and makes the expense share up to exactly 100. |
| `Budget.Max` | wage_explore.py:354 | Python's `max`: the result is at least both arguments and is one of them. |
| `Budget.Min` | wage_explore.py:357 | Python's `min`: the result is at most both arguments and is one of them. |
| `Budget.UpdateBar` | wage_explore.py:343-364 | It fails exactly when the arithmetic fails, with the same error. Otherwise it is `make_bar` over `[expense share, savings share]`. |
| `Budget.UpdateBarLabelled` | wage_explore.py:360-363 | It behaves like `UpdateBar`, but labels the segments with the labels `update_bar` declares. |
| `Budget.SavingsShareMatchesSavings` | wage_explore.py:354-358 | With a positive income, the savings share is the savings as a percentage of the income. This holds whether or not the expenses exceed the income. |
| `Budget.SharesWithinIncome` | wage_explore.py:357-358 | When the expenses are between 0 and a positive income, the expense share is their exact percentage. Both shares then lie in [0, 100]. |
| `Budget.SharesBar` | wage_explore.py:360-363 | Two shares that total 100 are drawn larger first. Each segment's percentage equals its share. |
| `Budget.UpdateBarShowsShares` | wage_explore.py:360-363 | The drawn bar has two segments, the larger share first. `make_bar`'s division by the total of 100 gives back each share, so each percentage equals its share. |
| `Budget.UpdateBarMislabelsShares` | wage_explore.py:360-363 | As written, the expense share is labelled "Chicken (lbs)" and the savings share "Gas (gallons)". No segment is named "Expenses" or "Savings". |
| `Budget.UpdateBarMislabelExample` | wage_explore.py:343-363 | A concrete input shows the mislabelling: $60,000 a year, 10 lbs at $4, 50 gallons at $3. |
| `Budget.UpdateBarLabelledNamesShares` | wage_explore.py:360-363 | With the declared labels, the expense share is drawn as "Expenses" and the savings share as "Savings". |

## Findings

| source | as written | input that shows it | evidently intended | confidence | as-written member | corrected member |
|---|---|---|---|---|---|---|
| wage_explore.py:127-128, 360-363 | `update_bar` declares the labels `["Expenses", "Savings"]`, but never passes them on. `make_bar` labels by position from its own list `["Chicken (lbs)", "Gas (gallons)", "Savings"]`. So the expense share shows as "Chicken (lbs)" and the savings share as "Gas (gallons)". | Year 2020, income 60000, chicken price 4, gas price 3, 10 lbs, 50 gallons. The bar is "Gas (gallons)" 96.2 followed by "Chicken (lbs)" 3.8. | The expense share is labelled "Expenses" and the savings share "Savings". | medium, not executed | `Budget.UpdateBarMislabelExample` | `Budget.UpdateBarLabelled` (property proved by `Budget.UpdateBarLabelledNamesShares`) |

## Left out

- Loading the CSV files and turning dates into years (wage_explore.py:14-25): file I/O and pandas date parsing. The model takes the frames as given.
- A named column missing from a frame (a pandas KeyError): each column is taken as present.
- `MAX_YR`, `MIN_YR` and `COLORS` (wage_explore.py:27-35): they only feed widget bounds and styling.
- The Dash and Bootstrap layout, text, tabs and cards: UI declarations with no computation.
- Building and styling the Plotly figure (wage_explore.py:133-158): a rendering library. The model stops at the ordered label, value and percentage of each segment.
- The reactive callback wiring and `app.run` (wage_explore.py:337-342, 367-368): the UI runtime.
- Input widgets that hold no value (`None`), which would raise a TypeError: the pounds and gallons are taken as numbers.
- The `.1f%` and `$,.2f` string formatting: presentation only.
- IEEE-754 floating point, including NaN and infinities: the arithmetic is over exact reals.
- `Budget.Allocate`: reports a monthly income of 0 as the error `ZeroIncome`. In the code, the prices are numpy floats, so this division gives an infinity or NaN with a runtime warning instead of raising. With nonnegative expenses, `min(100, inf)` and `min(100, nan)` are both 100, so the code then draws 100% expense and 0% savings. Exact reals have no infinity or NaN, so the model does not compute that bar.
- `BarChart.Bar`: reports a zero total as `ZeroTotal`, which is what Python floats raise. With numpy floats the percentages would be NaN or infinite. `update_bar`'s shares always total 100, so this never arises from that caller.
