/** The explorer's filter (run_filter in app.py): category equality with "All"
    turning it off, inclusive lexical date bounds, and a case-insensitive search
    over description, category and date, applied one after another. */
module Query {
  import opened Sequences
  import opened Expenses
  import Text

  /** What the explorer's four controls hold when the filter runs. */
  datatype Criteria = Criteria(category: string, dateFrom: string, dateTo: string, search: string)

  /** The category entry that switches the category filter off. */
  const AllCategories: string := "All"

  /** `q in str(field).lower()` */
  predicate FieldHit(q: string, field: string)
  {
    Text.Contains(Text.Lower(field), q)
  }

  /** The search test: the query occurs in the description, the category or the date. */
  predicate SearchHit(q: string, e: Expense)
  {
    FieldHit(q, e.description) || FieldHit(q, e.category) || FieldHit(q, e.date)
  }

  /** The masks of the date and search stages; the category stage uses
      Expenses.InCategory. */
  function ByFrom(f: string): Expense -> bool
  {
    (e: Expense) => Text.LexLe(f, e.date)
  }

  function ByTo(t: string): Expense -> bool
  {
    (e: Expense) => Text.LexLe(e.date, t)
  }

  function BySearch(q: string): Expense -> bool
  {
    (e: Expense) => SearchHit(q, e)
  }

  /** One stage of the filter: a mask applied only when its control is set. */
  function Stage(es: seq<Expense>, active: bool, keep: Expense -> bool): seq<Expense>
  {
    if active then Select(es, keep) else es
  }

  /** run_filter: category, then the lower date bound, then the upper one, then the search. */
  function RunFilter(es: seq<Expense>, c: Criteria): seq<Expense>
  {
    var f := Text.Strip(c.dateFrom);
    var t := Text.Strip(c.dateTo);
    var q := Text.Lower(Text.Strip(c.search));
    var byCategory := Stage(es, c.category != AllCategories, InCategory(c.category));
    var byFrom := Stage(byCategory, f != [], ByFrom(f));
    var byTo := Stage(byFrom, t != [], ByTo(t));
    Stage(byTo, q != [], BySearch(q))
  }

  /** The reference: a row is shown when it passes every active predicate. */
  predicate Matches(c: Criteria, e: Expense)
  {
    var f := Text.Strip(c.dateFrom);
    var t := Text.Strip(c.dateTo);
    var q := Text.Lower(Text.Strip(c.search));
    (c.category == AllCategories || e.category == c.category) &&
    (f == [] || Text.LexLe(f, e.date)) &&
    (t == [] || Text.LexLe(e.date, t)) &&
    (q == [] || SearchHit(q, e))
  }

  /** A stage applied to a selection is a selection by the conjunction of the
      two masks, the stage's mask counting only when its control is set. */
  lemma StageAfterSelect(es: seq<Expense>, p: Expense -> bool, active: bool, keep: Expense -> bool)
    ensures Stage(Select(es, p), active, keep) == Select(es, (e: Expense) => p(e) && (!active || keep(e)))
  {
    if active {
      SelectSelect(es, p, keep);
      SelectAgree(es, (e: Expense) => p(e) && keep(e), (e: Expense) => p(e) && (!active || keep(e)));
    } else {
      SelectAgree(es, p, (e: Expense) => p(e) && (!active || keep(e)));
    }
  }

  /** Applying the stages one after another is selecting by their conjunction. */
  lemma RunFilterSelects(es: seq<Expense>, c: Criteria)
    ensures RunFilter(es, c) == Select(es, (e: Expense) => Matches(c, e))
  {
    var f := Text.Strip(c.dateFrom);
    var t := Text.Strip(c.dateTo);
    var q := Text.Lower(Text.Strip(c.search));
    var k1 := InCategory(c.category);
    var k2 := ByFrom(f);
    var k3 := ByTo(t);
    var k4 := BySearch(q);
    var a1, a2, a3, a4 := c.category != AllCategories, f != [], t != [], q != [];
    var p0 := (e: Expense) => true;
    SelectAll(es, p0);
    StageAfterSelect(es, p0, a1, k1);
    var p1 := (e: Expense) => p0(e) && (!a1 || k1(e));
    StageAfterSelect(es, p1, a2, k2);
    var p2 := (e: Expense) => p1(e) && (!a2 || k2(e));
    StageAfterSelect(es, p2, a3, k3);
    var p3 := (e: Expense) => p2(e) && (!a3 || k3(e));
    StageAfterSelect(es, p3, a4, k4);
    var p4 := (e: Expense) => p3(e) && (!a4 || k4(e));
    assert RunFilter(es, c) == Select(es, p4);
    forall i | 0 <= i < |es| ensures p4(es[i]) == Matches(c, es[i]) {
      assert p4(es[i]) == ((!a1 || k1(es[i])) && (!a2 || k2(es[i])) && (!a3 || k3(es[i])) && (!a4 || k4(es[i])));
    }
    SelectAgree(es, p4, (e: Expense) => Matches(c, e));
  }

  /** The filter shows the order-preserving subsequence of exactly the rows
      that pass every active predicate. */
  lemma RunFilterSpec(es: seq<Expense>, c: Criteria)
    ensures SubsequenceOf(RunFilter(es, c), es)
    ensures forall i :: 0 <= i < |RunFilter(es, c)| ==> Matches(c, RunFilter(es, c)[i])
    ensures forall e :: Matches(c, e) ==> multiset(RunFilter(es, c))[e] == multiset(es)[e]
  {
    var keep := (e: Expense) => Matches(c, e);
    RunFilterSelects(es, c);
    SelectCounts(es, keep);
    var r := RunFilter(es, c);
    forall e | Matches(c, e) ensures multiset(r)[e] == multiset(es)[e] {
      assert keep(e);
    }
  }

  /** With "All" and blank bounds and search, every row is shown. */
  lemma NoCriteria(es: seq<Expense>, c: Criteria)
    requires c.category == AllCategories
    requires Text.IsBlank(c.dateFrom) && Text.IsBlank(c.dateTo) && Text.IsBlank(c.search)
    ensures RunFilter(es, c) == es
  {
    assert Text.Lower(Text.Strip(c.search)) == [];
  }

  /** Two example rows, dated January and February. */
  const FoodRow: Expense := Expense(1, "2024-01-05", "Food", 10.0, "")
  const RentRow: Expense := Expense(2, "2024-02-01", "Rent", 20.0, "")

  lemma FebruaryAfterJanuary()
    ensures !Text.LexLe("2024-02-01", "2024-01-05")
  {
    var a: string, b: string := "2024-02-01", "2024-01-05";
    assert a[..6] == b[..6];
    Text.LexLeFirstDifference(a, b, 6);
  }

  /** With the upper bound and the search left blank, only the first two stages act. */
  lemma RunFilterFirstStages(es: seq<Expense>, c: Criteria)
    requires Text.IsBlank(c.dateTo) && Text.IsBlank(c.search)
    ensures RunFilter(es, c) ==
      Stage(Stage(es, c.category != AllCategories, InCategory(c.category)),
            Text.Strip(c.dateFrom) != [], ByFrom(Text.Strip(c.dateFrom)))
  {
    assert Text.Lower(Text.Strip(c.search)) == [];
  }

  /** Filtering by "Food" keeps the first row only. */
  lemma CategoryExample()
    ensures RunFilter([FoodRow, RentRow], Criteria("Food", "", "", "")) == [FoodRow]
  {
    RunFilterFirstStages([FoodRow, RentRow], Criteria("Food", "", "", ""));
    assert Text.Strip("") == [];
    SelectPair(FoodRow, RentRow, InCategory("Food"));
  }

  /** A lower bound of 2024-02-01 keeps the second row only. */
  lemma DateFromExample()
    ensures RunFilter([FoodRow, RentRow], Criteria(AllCategories, "2024-02-01", "", "")) == [RentRow]
  {
    RunFilterFirstStages([FoodRow, RentRow], Criteria(AllCategories, "2024-02-01", "", ""));
    Text.StripTrimmed("2024-02-01");
    Text.LexLeReflexive("2024-02-01");
    FebruaryAfterJanuary();
    SelectPair(FoodRow, RentRow, ByFrom("2024-02-01"));
  }

  /** Both together keep neither. */
  lemma CombinedExample()
    ensures RunFilter([FoodRow, RentRow], Criteria("Food", "2024-02-01", "", "")) == []
  {
    RunFilterFirstStages([FoodRow, RentRow], Criteria("Food", "2024-02-01", "", ""));
    Text.StripTrimmed("2024-02-01");
    FebruaryAfterJanuary();
    SelectPair(FoodRow, RentRow, InCategory("Food"));
    assert Select([FoodRow], ByFrom("2024-02-01")) == [];
  }

  // ------------------------------------------------------------ finding

  /** str(cell) as the search sees a text cell: read_csv reads an empty cell
      as NaN, and str(NaN) is "nan". */
  function ShownAsWritten(field: string): string
  {
    if field == [] then "nan" else field
  }

  /** The search test as app.py:251-253 performs it on a reloaded row. */
  predicate SearchHitAsWritten(q: string, e: Expense)
  {
    FieldHit(q, ShownAsWritten(e.description)) || FieldHit(q, ShownAsWritten(e.category)) ||
    FieldHit(q, ShownAsWritten(e.date))
  }

  /** As written, searching "na" finds a row only because its description is empty. */
  lemma NanSearchFinding()
    ensures var e := Expense(1, "2024-01-05", "Food", 10.0, "");
      SearchHitAsWritten("na", e) && !SearchHit("na", e)
  {
    var e := Expense(1, "2024-01-05", "Food", 10.0, "");
    assert Text.OccursAt(Text.Lower("nan"), "na", 0);
    assert Text.Lower("Food") == "food";
    Text.FirstCharAbsent("food", "na");
    Text.FirstCharAbsent(Text.Lower("2024-01-05"), "na");
  }

  /** The search the model uses: an empty description matches no non-empty query,
      so such a row is found only through its category or date. */
  lemma SearchEmptyDescription(q: string, e: Expense)
    requires e.description == [] && q != []
    ensures SearchHit(q, e) <==> FieldHit(q, e.category) || FieldHit(q, e.date)
  {
    assert Text.Lower(e.description) == [];
  }
}
