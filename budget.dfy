/**
 * The monthly budget breakdown behind the allocation bar chart
 * (wage_explore.py, update_bar): the month's income, the cost of the chosen
 * pounds of chicken and gallons of gas at the year's prices, the money left
 * over, and the expense and savings shares in percent.
 */
module Budget {
  import opened Results
  import opened Tables
  import opened BarChart

  /**
   * Why update_bar yields no figure in the model: the first two raise in the
   * code; for the third the code's numpy division gives an infinity or NaN,
   * which exact reals do not have.
   */
  datatype BudgetError =
    | MissingChickenPrice  // `.iloc[0]` on an empty chicken price selection
    | MissingGasPrice      // `.iloc[0]` on an empty gas price selection
    | ZeroIncome           // the expense share divides by a monthly income of 0

  /** The money and percentages update_bar computes before drawing. */
  datatype Allocation = Allocation(
    monthlyIncome: real,
    totalExpense: real,
    savings: real,
    expensePercent: real,
    savingsPercent: real)

  /** The legend labels update_bar declares for its two segments. */
  const IntendedLabels: seq<string> := ["Expenses", "Savings"]

  /** The year's first chicken and gas prices are rows `i` and `j`. */
  ghost predicate PricesAt(f: Frames, year: int, i: int, j: int) {
    IsFirstMatch(f.chickenPrice, year, i) && IsFirstMatch(f.gasPrice, year, j)
  }

  /** update_bar's arithmetic, lines up to the call of make_bar. */
  function Allocate(f: Frames, chickenLbs: real, gasGallons: real, year: int): (r: Result<Allocation, BudgetError>)
    ensures r == Err(MissingChickenPrice) <==> !HasYear(f.chickenPrice, year)
    ensures r == Err(MissingGasPrice) <==> HasYear(f.chickenPrice, year) && !HasYear(f.gasPrice, year)
    ensures r == Err(ZeroIncome) <==>
      HasYear(f.chickenPrice, year) && HasYear(f.gasPrice, year) && StartingAmount(f, year) == 0.0
    ensures r.Ok? ==> r.value.monthlyIncome == StartingAmount(f, year) != 0.0
    ensures forall i, j | PricesAt(f, year, i, j) :: r.Ok? ==>
      r.value.totalExpense == chickenLbs * f.chickenPrice[i].value + gasGallons * f.gasPrice[j].value
    ensures r.Ok? ==> var a := r.value;
      // savings: the larger of 0 and what the income leaves after the expenses
      a.savings >= 0.0 && a.savings >= a.monthlyIncome - a.totalExpense &&
      (a.savings == 0.0 || a.savings == a.monthlyIncome - a.totalExpense)
    ensures r.Ok? ==> var a := r.value;
      // expense share: the smaller of 100 and the expenses as a percentage of the income
      a.expensePercent <= 100.0 && a.expensePercent <= a.totalExpense / a.monthlyIncome * 100.0 &&
      (a.expensePercent == 100.0 || a.expensePercent == a.totalExpense / a.monthlyIncome * 100.0)
    ensures r.Ok? ==> var a := r.value;
      // the savings share never goes negative and completes the expense share to 100
      a.savingsPercent >= 0.0 && a.expensePercent + a.savingsPercent == 100.0
  {
    var monthlyIncome := StartingAmount(f, year);
    match Lookup(f.chickenPrice, year)
    case None => Err(MissingChickenPrice)
    case Some(pricePerLbChicken) =>
      match Lookup(f.gasPrice, year)
      case None => Err(MissingGasPrice)
      case Some(pricePerGallonGas) =>
        var totalExpense := chickenLbs * pricePerLbChicken + gasGallons * pricePerGallonGas;
        var savings := Max(0.0, monthlyIncome - totalExpense);
        if monthlyIncome == 0.0 then Err(ZeroIncome)
        else
          var expensePercent := Min(100.0, totalExpense / monthlyIncome * 100.0);
          var savingsPercent := Max(0.0, 100.0 - expensePercent);
          Ok(Allocation(monthlyIncome, totalExpense, savings, expensePercent, savingsPercent))
  }

  /** Python's `max(a, b)`: `b` only when it is strictly larger. */
  function Max(a: real, b: real): (r: real)
    ensures r >= a && r >= b && (r == a || r == b)
  {
    if b > a then b else a
  }

  /** Python's `min(a, b)`: `b` only when it is strictly smaller. */
  function Min(a: real, b: real): (r: real)
    ensures r <= a && r <= b && (r == a || r == b)
  {
    if b < a then b else a
  }

  /**
   * update_bar as written: the two shares drawn by make_bar, which labels
   * them from its own list and so ignores the labels update_bar declares.
   */
  function UpdateBar(f: Frames, chickenLbs: real, gasGallons: real, year: int): (r: Result<seq<Segment>, BudgetError>)
    ensures r.Err? <==> Allocate(f, chickenLbs, gasGallons, year).Err?
    ensures r.Err? ==> r.error == Allocate(f, chickenLbs, gasGallons, year).error
    ensures r.Ok? ==> var a := Allocate(f, chickenLbs, gasGallons, year).value;
      MakeBar([a.expensePercent, a.savingsPercent]) == Ok(r.value)
  {
    match Allocate(f, chickenLbs, gasGallons, year)
    case Err(e) => Err(e)
    case Ok(a) =>
      var shares := [a.expensePercent, a.savingsPercent];
      SumPair(a.expensePercent, a.savingsPercent);
      Ok(MakeBar(shares).value)
  }

  /** update_bar with the labels it declares: each share drawn under its own name. */
  function UpdateBarLabelled(f: Frames, chickenLbs: real, gasGallons: real, year: int): (r: Result<seq<Segment>, BudgetError>)
    ensures r.Err? <==> Allocate(f, chickenLbs, gasGallons, year).Err?
    ensures r.Err? ==> r.error == Allocate(f, chickenLbs, gasGallons, year).error
    ensures r.Ok? ==> var a := Allocate(f, chickenLbs, gasGallons, year).value;
      Bar([a.expensePercent, a.savingsPercent], IntendedLabels) == Ok(r.value)
  {
    match Allocate(f, chickenLbs, gasGallons, year)
    case Err(e) => Err(e)
    case Ok(a) =>
      var shares := [a.expensePercent, a.savingsPercent];
      SumPair(a.expensePercent, a.savingsPercent);
      Ok(Bar(shares, IntendedLabels).value)
  }

  // ---------------------------------------------------------------------------
  // Properties of the breakdown

  /**
   * With a positive income the savings share is exactly the savings as a
   * percentage of the income, whether the expenses exceed the income or not.
   */
  lemma SavingsShareMatchesSavings(f: Frames, chickenLbs: real, gasGallons: real, year: int)
    requires Allocate(f, chickenLbs, gasGallons, year).Ok?
    requires StartingAmount(f, year) > 0.0
    ensures var a := Allocate(f, chickenLbs, gasGallons, year).value;
      a.savingsPercent * a.monthlyIncome == a.savings * 100.0
  {
    var a := Allocate(f, chickenLbs, gasGallons, year).value;
    var mi, te := a.monthlyIncome, a.totalExpense;
    var share := te / mi * 100.0;
    assert share * mi == te * 100.0;
    ShareBounds(te, mi, share);
    if te <= mi {
      assert a.savingsPercent * mi == 100.0 * mi - share * mi;
    }
  }

  /**
   * When the expenses are within a positive income, the expense share is
   * their exact percentage of it, and both shares lie in [0, 100].
   */
  lemma SharesWithinIncome(f: Frames, chickenLbs: real, gasGallons: real, year: int)
    requires Allocate(f, chickenLbs, gasGallons, year).Ok?
    requires var a := Allocate(f, chickenLbs, gasGallons, year).value;
      a.monthlyIncome > 0.0 && 0.0 <= a.totalExpense <= a.monthlyIncome
    ensures var a := Allocate(f, chickenLbs, gasGallons, year).value;
      a.expensePercent * a.monthlyIncome == a.totalExpense * 100.0 &&
      0.0 <= a.expensePercent <= 100.0 && 0.0 <= a.savingsPercent <= 100.0
  {
    var a := Allocate(f, chickenLbs, gasGallons, year).value;
    var share := a.totalExpense / a.monthlyIncome * 100.0;
    assert share * a.monthlyIncome == a.totalExpense * 100.0;
    ShareBounds(a.totalExpense, a.monthlyIncome, share);
  }

  /**
   * Two shares that total 100 are drawn larger first (the expense share on a
   * tie), each segment showing its share as its percentage.
   */
  lemma SharesBar(e: real, sv: real, labels: seq<string>)
    requires e + sv == 100.0 && |labels| >= 2
    ensures Bar([e, sv], labels) == Ok(
      if e >= sv then [Segment(labels[0], e, e), Segment(labels[1], sv, sv)]
      else [Segment(labels[1], sv, sv), Segment(labels[0], e, e)])
  {
    var total := e + sv;
    assert total == 100.0;
    assert e / total * 100.0 == e && sv / total * 100.0 == sv;
    BarOfPair(e, sv, labels);
  }

  /**
   * The drawn bar has two segments, the larger share first, and since the
   * shares total 100 each segment's percentage is its share itself.
   */
  lemma UpdateBarShowsShares(f: Frames, chickenLbs: real, gasGallons: real, year: int)
    requires UpdateBar(f, chickenLbs, gasGallons, year).Ok?
    ensures var a := Allocate(f, chickenLbs, gasGallons, year).value;
      var bar := UpdateBar(f, chickenLbs, gasGallons, year).value;
      |bar| == 2 && bar[0].value >= bar[1].value &&
      bar[0].percent == bar[0].value && bar[1].percent == bar[1].value &&
      ((bar[0].value, bar[1].value) == (a.expensePercent, a.savingsPercent) ||
       (bar[0].value, bar[1].value) == (a.savingsPercent, a.expensePercent))
  {
    var a := Allocate(f, chickenLbs, gasGallons, year).value;
    SharesBar(a.expensePercent, a.savingsPercent, Labels);
  }

  /**
   * As written, the expense share is drawn under "Chicken (lbs)" and the
   * savings share under "Gas (gallons)"; no segment is named "Expenses" or
   * "Savings".
   */
  lemma UpdateBarMislabelsShares(f: Frames, chickenLbs: real, gasGallons: real, year: int)
    requires UpdateBar(f, chickenLbs, gasGallons, year).Ok?
    ensures var a := Allocate(f, chickenLbs, gasGallons, year).value;
      var bar := UpdateBar(f, chickenLbs, gasGallons, year).value;
      |bar| == 2 &&
      (exists k | 0 <= k < 2 :: bar[k] == Segment("Chicken (lbs)", a.expensePercent, a.expensePercent)) &&
      (exists k | 0 <= k < 2 :: bar[k] == Segment("Gas (gallons)", a.savingsPercent, a.savingsPercent)) &&
      forall k | 0 <= k < 2 :: bar[k].name !in IntendedLabels
  {
    var a := Allocate(f, chickenLbs, gasGallons, year).value;
    SharesBar(a.expensePercent, a.savingsPercent, Labels);
    var bar := UpdateBar(f, chickenLbs, gasGallons, year).value;
    var k := if a.expensePercent >= a.savingsPercent then 0 else 1;
    assert bar[k] == Segment("Chicken (lbs)", a.expensePercent, a.expensePercent);
    assert bar[1 - k] == Segment("Gas (gallons)", a.savingsPercent, a.savingsPercent);
  }

  /** The concrete case of the finding: 10 lbs of chicken at $4 and 50 gallons of gas at $3 on $60,000 a year. */
  lemma UpdateBarMislabelExample()
    ensures var f := Frames([Row(2020, 60000.0)], [Row(2020, 4.0)], [Row(2020, 3.0)], []);
      UpdateBar(f, 10.0, 50.0, 2020) ==
        Ok([Segment("Gas (gallons)", 96.2, 96.2), Segment("Chicken (lbs)", 3.8, 3.8)])
  {
    var f := Frames([Row(2020, 60000.0)], [Row(2020, 4.0)], [Row(2020, 3.0)], []);
    assert IsFirstMatch(f.income, 2020, 0);
    assert PricesAt(f, 2020, 0, 0);
    var a := Allocate(f, 10.0, 50.0, 2020).value;
    assert a.monthlyIncome == 5000.0 && a.totalExpense == 190.0;
    assert a.expensePercent == 3.8 && a.savingsPercent == 96.2;
    SharesBar(3.8, 96.2, Labels);
  }

  /** Corrected: the expense share is drawn under "Expenses" and the savings share under "Savings". */
  lemma UpdateBarLabelledNamesShares(f: Frames, chickenLbs: real, gasGallons: real, year: int)
    requires UpdateBarLabelled(f, chickenLbs, gasGallons, year).Ok?
    ensures var a := Allocate(f, chickenLbs, gasGallons, year).value;
      var bar := UpdateBarLabelled(f, chickenLbs, gasGallons, year).value;
      |bar| == 2 &&
      (exists k | 0 <= k < 2 :: bar[k] == Segment("Expenses", a.expensePercent, a.expensePercent)) &&
      (exists k | 0 <= k < 2 :: bar[k] == Segment("Savings", a.savingsPercent, a.savingsPercent))
  {
    var a := Allocate(f, chickenLbs, gasGallons, year).value;
    SharesBar(a.expensePercent, a.savingsPercent, IntendedLabels);
    var bar := UpdateBarLabelled(f, chickenLbs, gasGallons, year).value;
    var k := if a.expensePercent >= a.savingsPercent then 0 else 1;
    assert bar[k] == Segment("Expenses", a.expensePercent, a.expensePercent);
    assert bar[1 - k] == Segment("Savings", a.savingsPercent, a.savingsPercent);
  }
}
