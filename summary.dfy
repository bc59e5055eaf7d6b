/**
 * The summary page: nutrient totals over the selected day, its Monday-start
 * week and its month, and the fixed-divisor weekly and monthly averages.
 */
module Summary {
  import opened Types
  import opened ArrayOps
  import DateStrings

  /** `NutrientSummary`: totals of the four tracked nutrients. */
  datatype NutrientSummary = NutrientSummary(calories: real, protein: real, fats: real, sugar: real)
  {
    function Plus(o: NutrientSummary): NutrientSummary
    {
      NutrientSummary(calories + o.calories, protein + o.protein, fats + o.fats, sugar + o.sugar)
    }

    function Times(k: real): NutrientSummary
    {
      NutrientSummary(calories * k, protein * k, fats * k, sugar * k)
    }

    function DividedBy(d: real): NutrientSummary
      requires d != 0.0
    {
      NutrientSummary(calories / d, protein / d, fats / d, sugar / d)
    }

    lemma DividedByThenTimes(d: real)
      requires d != 0.0
      ensures DividedBy(d).Times(d) == this
    {
    }

    /** Componentwise `<=`. */
    predicate AtMost(o: NutrientSummary)
    {
      calories <= o.calories && protein <= o.protein && fats <= o.fats && sugar <= o.sugar
    }
  }

  const Zero := NutrientSummary(0.0, 0.0, 0.0, 0.0)

  /** What one entry adds to the totals: `meal.calories || 0` and likewise for the others. */
  function Contribution(m: MealEntry): NutrientSummary
  {
    NutrientSummary(m.calories.GetOr(0.0), m.protein.GetOr(0.0), m.fats.GetOr(0.0), m.sugar.GetOr(0.0))
  }

  /** The totals `calculateSummary` reduces to, folding from the left. */
  function Total(meals: seq<MealEntry>): NutrientSummary
  {
    if meals == [] then Zero
    else Total(meals[..|meals| - 1]).Plus(Contribution(meals[|meals| - 1]))
  }

  /** `calculateSummary`: start at zero and add each entry's fields into the accumulator. */
  method CalculateSummary(meals: seq<MealEntry>) returns (acc: NutrientSummary)
    ensures acc == Total(meals)
  {
    var calories, protein, fats, sugar := 0.0, 0.0, 0.0, 0.0;
    for i := 0 to |meals|
      invariant NutrientSummary(calories, protein, fats, sugar) == Total(meals[..i])
    {
      var meal := meals[i];
      calories := calories + meal.calories.GetOr(0.0);
      protein := protein + meal.protein.GetOr(0.0);
      fats := fats + meal.fats.GetOr(0.0);
      sugar := sugar + meal.sugar.GetOr(0.0);
      assert meals[..i + 1][..i] == meals[..i];
    }
    assert meals[..|meals|] == meals;
    acc := NutrientSummary(calories, protein, fats, sugar);
  }

  /** Nothing logged, nothing eaten. */
  lemma TotalOfNothing()
    ensures Total([]) == Zero
  {
  }

  /** An entry without a nutrient leaves that total where it was. */
  lemma AbsentNutrientAddsNothing(meals: seq<MealEntry>, m: MealEntry)
    ensures m.calories.None? ==> Total(meals + [m]).calories == Total(meals).calories
    ensures m.protein.None? ==> Total(meals + [m]).protein == Total(meals).protein
    ensures m.fats.None? ==> Total(meals + [m]).fats == Total(meals).fats
    ensures m.sugar.None? ==> Total(meals + [m]).sugar == Total(meals).sugar
  {
    assert (meals + [m])[..|meals|] == meals;
  }

  /** Totals are additive over concatenation. */
  lemma {:induction false} TotalAppend(a: seq<MealEntry>, b: seq<MealEntry>)
    ensures Total(a + b) == Total(a).Plus(Total(b))
  {
    if b == [] {
      assert a + b == a;
    } else {
      var b' := b[..|b| - 1];
      assert (a + b)[..|a + b| - 1] == a + b';
      TotalAppend(a, b');
    }
  }

  lemma TotalCons(m: MealEntry, s: seq<MealEntry>)
    ensures Total([m] + s) == Contribution(m).Plus(Total(s))
  {
    TotalAppend([m], s);
    assert [m][..0] == [];
  }

  predicate NutrientsNonNegative(m: MealEntry)
  {
    NonNegative(m.calories) && NonNegative(m.protein) && NonNegative(m.fats) && NonNegative(m.sugar)
  }

  /** With no negative amounts, totals are non-negative and at least any one entry's amounts. */
  lemma {:induction false} TotalBounds(meals: seq<MealEntry>)
    requires forall i :: 0 <= i < |meals| ==> NutrientsNonNegative(meals[i])
    ensures Zero.AtMost(Total(meals))
    ensures forall i :: 0 <= i < |meals| ==> Contribution(meals[i]).AtMost(Total(meals))
  {
    if meals != [] {
      var init := meals[..|meals| - 1];
      TotalBounds(init);
      forall i | 0 <= i < |meals| ensures Contribution(meals[i]).AtMost(Total(meals)) {
        if i < |meals| - 1 { assert meals[i] == init[i]; }
      }
    }
  }

  /** With no negative amounts, a filtered total is at most the full total. */
  lemma {:induction false} FilteredTotalAtMost(meals: seq<MealEntry>, p: MealEntry -> bool)
    requires forall i :: 0 <= i < |meals| ==> NutrientsNonNegative(meals[i])
    ensures Total(Filter(meals, p)).AtMost(Total(meals))
  {
    if meals != [] {
      var m, rest := meals[0], meals[1..];
      var kept := Filter(rest, p);
      FilteredTotalAtMost(rest, p);
      assert meals == [m] + rest;
      TotalCons(m, rest);
      assert NutrientsNonNegative(m);
      if p(m) {
        assert Filter(meals, p) == [m] + kept;
        TotalCons(m, kept);
      } else {
        assert Filter(meals, p) == kept;
      }
    }
  }

  datatype Period = Day | Week | Month

  /**
   * The `yyyy-MM-dd` strings date-fns computes for the selected date: the day
   * itself and the first and last days of its Monday-start week and of its month.
   */
  datatype PeriodBounds = PeriodBounds(today: string, weekStart: string, weekEnd: string,
                                       monthStart: string, monthEnd: string)

  /** The test `meal.date === todayStr`. */
  function OnDay(day: string): MealEntry -> bool
  {
    (m: MealEntry) => m.date == day
  }

  /** The test `mealDate >= start && mealDate <= end` on strings. */
  function Between(start: string, end: string): MealEntry -> bool
  {
    (m: MealEntry) => DateStrings.AtMost(start, m.date) && DateStrings.AtMost(m.date, end)
  }

  /** Whether an entry belongs to the period, as the period's filter decides. */
  predicate InPeriod(m: MealEntry, period: Period, b: PeriodBounds)
  {
    match period
    case Day => m.date == b.today
    case Week => DateStrings.AtMost(b.weekStart, m.date) && DateStrings.AtMost(m.date, b.weekEnd)
    case Month => DateStrings.AtMost(b.monthStart, m.date) && DateStrings.AtMost(m.date, b.monthEnd)
  }

  /** `filterMealsByPeriod`: the entries in the period, in their stored order. */
  function MealsInPeriod(meals: seq<MealEntry>, period: Period, b: PeriodBounds): (r: seq<MealEntry>)
    ensures IsSubsequence(r, meals)
    ensures forall i :: 0 <= i < |r| ==> InPeriod(r[i], period, b)
    ensures forall i :: 0 <= i < |meals| && InPeriod(meals[i], period, b) ==> meals[i] in r
    ensures forall x :: multiset(r)[x] == if InPeriod(x, period, b) then multiset(meals)[x] else 0
  {
    match period
    case Day =>
      FilterIsSubsequence(meals, OnDay(b.today));
      FilterCounts(meals, OnDay(b.today));
      Filter(meals, OnDay(b.today))
    case Week =>
      FilterIsSubsequence(meals, Between(b.weekStart, b.weekEnd));
      FilterCounts(meals, Between(b.weekStart, b.weekEnd));
      Filter(meals, Between(b.weekStart, b.weekEnd))
    case Month =>
      FilterIsSubsequence(meals, Between(b.monthStart, b.monthEnd));
      FilterCounts(meals, Between(b.monthStart, b.monthEnd));
      Filter(meals, Between(b.monthStart, b.monthEnd))
  }

  /** When the day lies in a window, the day's entries are the window's entries of that day. */
  lemma DayWithinWindow(meals: seq<MealEntry>, day: string, start: string, end: string)
    requires DateStrings.AtMost(start, day) && DateStrings.AtMost(day, end)
    ensures Filter(Filter(meals, Between(start, end)), OnDay(day)) == Filter(meals, OnDay(day))
    ensures IsSubsequence(Filter(meals, OnDay(day)), Filter(meals, Between(start, end)))
  {
    FilterNarrows(meals, OnDay(day), Between(start, end));
    FilterIsSubsequence(Filter(meals, Between(start, end)), OnDay(day));
  }

  const DaysPerWeek: real := 7.0
  const DaysPerMonth: real := 30.0

  /** The three bars of the overview chart (`summaryData`). */
  datatype Overview = Overview(daily: NutrientSummary, weeklyAverage: NutrientSummary, monthlyAverage: NutrientSummary)

  /**
   * `summaryData`: the day's totals, and the week's and month's totals divided
   * by 7 and by 30 however many days actually have entries.
   */
  function SummaryData(meals: seq<MealEntry>, b: PeriodBounds): (r: Overview)
    ensures r.daily == Total(MealsInPeriod(meals, Day, b))
    ensures r.weeklyAverage.Times(DaysPerWeek) == Total(MealsInPeriod(meals, Week, b))
    ensures r.monthlyAverage.Times(DaysPerMonth) == Total(MealsInPeriod(meals, Month, b))
  {
    var weekly := Total(MealsInPeriod(meals, Week, b));
    var monthly := Total(MealsInPeriod(meals, Month, b));
    weekly.DividedByThenTimes(DaysPerWeek);
    monthly.DividedByThenTimes(DaysPerMonth);
    Overview(Total(MealsInPeriod(meals, Day, b)), weekly.DividedBy(DaysPerWeek), monthly.DividedBy(DaysPerMonth))
  }

  /** With no negative amounts, a day in its week and month eats no more than the week and month totals. */
  lemma DailyAtMostPeriodTotals(meals: seq<MealEntry>, b: PeriodBounds)
    requires forall i :: 0 <= i < |meals| ==> NutrientsNonNegative(meals[i])
    requires DateStrings.AtMost(b.weekStart, b.today) && DateStrings.AtMost(b.today, b.weekEnd)
    requires DateStrings.AtMost(b.monthStart, b.today) && DateStrings.AtMost(b.today, b.monthEnd)
    ensures SummaryData(meals, b).daily.AtMost(SummaryData(meals, b).weeklyAverage.Times(DaysPerWeek))
    ensures SummaryData(meals, b).daily.AtMost(SummaryData(meals, b).monthlyAverage.Times(DaysPerMonth))
  {
    var day := Filter(meals, OnDay(b.today));
    var week := Filter(meals, Between(b.weekStart, b.weekEnd));
    var month := Filter(meals, Between(b.monthStart, b.monthEnd));
    assert MealsInPeriod(meals, Day, b) == day;
    assert MealsInPeriod(meals, Week, b) == week;
    assert MealsInPeriod(meals, Month, b) == month;
    var o := SummaryData(meals, b);
    assert o.daily == Total(day);
    assert o.weeklyAverage.Times(DaysPerWeek) == Total(week);
    assert o.monthlyAverage.Times(DaysPerMonth) == Total(month);
    NonNegativeSurvivesFilter(meals, Between(b.weekStart, b.weekEnd));
    NonNegativeSurvivesFilter(meals, Between(b.monthStart, b.monthEnd));
    DayWithinWindow(meals, b.today, b.weekStart, b.weekEnd);
    DayWithinWindow(meals, b.today, b.monthStart, b.monthEnd);
    FilteredTotalAtMost(week, OnDay(b.today));
    FilteredTotalAtMost(month, OnDay(b.today));
    assert Total(day).AtMost(Total(week));
    assert Total(day).AtMost(Total(month));
  }

  lemma NonNegativeSurvivesFilter(meals: seq<MealEntry>, p: MealEntry -> bool)
    requires forall i :: 0 <= i < |meals| ==> NutrientsNonNegative(meals[i])
    ensures forall i :: 0 <= i < |Filter(meals, p)| ==> NutrientsNonNegative(Filter(meals, p)[i])
  {
    var r := Filter(meals, p);
    forall i | 0 <= i < |r| ensures NutrientsNonNegative(r[i]) {
      var j :| 0 <= j < |meals| && meals[j] == r[i];
    }
  }
}
