/**
 * The year-keyed tables of the budget dashboard and the helper lookups over
 * them (wage_explore.py, get_starting_amount, cost_per_mile, cost_per_meal).
 *
 * A pandas selection `df.loc[df["year"] == y, col]` followed by `.iloc[0]`
 * is the value of the first row, in row order, whose year is `y`. A column
 * is therefore modelled as the sequence of its rows, each row pairing the
 * frame's `year` field with that column's value.
 */
module Tables {
  import opened Results

  /** One row of a data frame, seen through one value column. */
  datatype Row = Row(year: int, value: real)

  type Column = seq<Row>

  /**
   * The loaded frames, passed in rather than read from module globals.
   * Each field is one value column of one frame:
   *   income          income_df["MEHOINUSA672N"]  (annual household income)
   *   chickenPrice    chicken_df["APU0000706111"] (price of chicken per pound)
   *   gasPrice        gas_df["GASREGCOVW"]        (price of gas per gallon)
   *   gasChickenPrice gas_df["APU0000706111"]     (the chicken column read from the gas frame)
   * `gasPrice` and `gasChickenPrice` are two columns of the one gas frame and
   * share its `year` column; the model gives each its own rows, as no
   * property here relates the two.
   */
  datatype Frames = Frames(income: Column, chickenPrice: Column, gasPrice: Column, gasChickenPrice: Column)

  /** Annual income is spread over this many months. */
  const MonthsPerYear: real := 12.0
  /** Assumed fuel economy of the household car. */
  const MilesPerGallon: real := 25.0
  /** Assumed number of meals in one pound of chicken. */
  const MealsPerPound: real := 3.0

  /** Some row of `col` has year `y`: the selection is not empty. */
  ghost predicate HasYear(col: Column, y: int) {
    exists i | 0 <= i < |col| :: col[i].year == y
  }

  /** Row `i` is the first row of `col`, in row order, whose year is `y`. */
  ghost predicate IsFirstMatch(col: Column, y: int, i: int) {
    0 <= i < |col| && col[i].year == y && forall j | 0 <= j < i :: col[j].year != y
  }

  /** Every value of the column is at least zero. */
  ghost predicate Nonnegative(col: Column) {
    forall i | 0 <= i < |col| :: col[i].value >= 0.0
  }

  /** Position of the first row with year `y`, if there is one. */
  function FirstMatch(col: Column, y: int): (r: Option<nat>)
    ensures r.None? <==> !HasYear(col, y)
    ensures r.Some? ==> IsFirstMatch(col, y, r.value)
  {
    if |col| == 0 then None
    else if col[0].year == y then Some(0)
    else match FirstMatch(col[1..], y)
      case None => None
      case Some(i) => Some(i + 1)
  }

  /** `.loc[year == y].iloc[0]`: the value of the first row with year `y`, if any. */
  function Lookup(col: Column, y: int): (r: Option<real>)
    ensures r.None? <==> !HasYear(col, y)
    ensures forall i | IsFirstMatch(col, y, i) :: r == Some(col[i].value)
  {
    match FirstMatch(col, y)
    case None => None
    case Some(i) => Some(col[i].value)
  }

  /** get_starting_amount: the year's annual income as a monthly amount, or 0 for an absent year. */
  function StartingAmount(f: Frames, y: int): (r: real)
    ensures !HasYear(f.income, y) ==> r == 0.0
    ensures forall i | IsFirstMatch(f.income, y, i) :: r * MonthsPerYear == f.income[i].value
    ensures Nonnegative(f.income) ==> r >= 0.0
  {
    match Lookup(f.income, y)
    case None => 0.0
    case Some(v) => v / MonthsPerYear
  }

  /** cost_per_mile: the year's gas price spread over the miles one gallon drives, or 0. */
  function CostPerMile(f: Frames, y: int): (r: real)
    ensures !HasYear(f.gasPrice, y) ==> r == 0.0
    ensures forall i | IsFirstMatch(f.gasPrice, y, i) :: r * MilesPerGallon == f.gasPrice[i].value
    ensures Nonnegative(f.gasPrice) ==> r >= 0.0
  {
    match Lookup(f.gasPrice, y)
    case None => 0.0
    case Some(v) => v / MilesPerGallon
  }

  /**
   * cost_per_meal: the price of a pound of chicken spread over the meals it
   * makes, or 0. As in the source, the price is read from the gas frame.
   */
  function CostPerMeal(f: Frames, y: int): (r: real)
    ensures !HasYear(f.gasChickenPrice, y) ==> r == 0.0
    ensures forall i | IsFirstMatch(f.gasChickenPrice, y, i) :: r * MealsPerPound == f.gasChickenPrice[i].value
    ensures Nonnegative(f.gasChickenPrice) ==> r >= 0.0
  {
    match Lookup(f.gasChickenPrice, y)
    case None => 0.0
    case Some(v) => v / MealsPerPound
  }

  /**
   * Only the first occurrence of a year matters: looking a year up in rows
   * `a` followed by rows `b` finds it in `a` when `a` has it, else in `b`.
   */
  lemma {:induction false} LookupConcat(a: Column, b: Column, y: int)
    ensures Lookup(a + b, y) == if HasYear(a, y) then Lookup(a, y) else Lookup(b, y)
  {
    if a == [] {
      assert a + b == b;
    } else if a[0].year == y {
      assert IsFirstMatch(a + b, y, 0) && IsFirstMatch(a, y, 0);
    } else {
      assert (a + b)[1..] == a[1..] + b;
      LookupConcat(a[1..], b, y);
      LookupTail(a + b, y);
      LookupTail(a, y);
      assert HasYear(a, y) <==> HasYear(a[1..], y) by {
        if HasYear(a, y) {
          var i :| 0 <= i < |a| && a[i].year == y;
          assert a[1..][i - 1].year == y;
        }
        if HasYear(a[1..], y) {
          var i :| 0 <= i < |a[1..]| && a[1..][i].year == y;
          assert a[i + 1].year == y;
        }
      }
    }
  }

  /** A first row for another year can be skipped. */
  lemma LookupTail(col: Column, y: int)
    requires |col| > 0 && col[0].year != y
    ensures Lookup(col, y) == Lookup(col[1..], y)
  {
    match FirstMatch(col[1..], y)
    case None =>
    case Some(i) =>
      assert IsFirstMatch(col, y, i + 1) by {
        forall j | 0 <= j < i + 1 ensures col[j].year != y {
          if j > 0 { assert col[j] == col[1..][j - 1]; }
        }
      }
  }

  /**
   * Once the frames are joined, each year occurs at most once; then the
   * lookup of a year returns exactly the value of its row.
   */
  lemma LookupUniqueYear(col: Column, i: int)
    requires 0 <= i < |col|
    requires forall j, k | 0 <= j < k < |col| :: col[j].year != col[k].year
    ensures Lookup(col, col[i].year) == Some(col[i].value)
  {
    assert IsFirstMatch(col, col[i].year, i);
  }
}
