/** The dashboard and summary figures: the total of all amounts and
    df.groupby("category")["amount"].sum(). */
module Summary {
  import opened Sequences
  import opened Expenses

  /** df["amount"].sum(), which the dashboard shows as 0 for an empty table. */
  function Total(es: seq<Expense>): real
  {
    if es == [] then 0.0 else es[0].amount + Total(es[1..])
  }

  /** An appended row adds its amount to the total. */
  lemma {:induction false} TotalAppend(es: seq<Expense>, e: Expense)
    ensures Total(es + [e]) == Total(es) + e.amount
  {
    if es != [] {
      assert (es + [e])[1..] == es[1..] + [e];
      TotalAppend(es[1..], e);
    }
  }

  /** After save_expense appends e, the dashboard total has grown by e's amount. */
  lemma SaveAddsToTotal(f: ExpenseFile, e: Expense)
    ensures Total(Loaded(Appended(f, e))) == Total(Loaded(f)) + e.amount
  {
    AppendedLoads(f, e);
    TotalAppend(Loaded(f), e);
  }

  /** The reference sum for one category: the total of the rows filed under it. */
  function CategoryTotal(es: seq<Expense>, c: string): real
  {
    Total(Select(es, InCategory(c)))
  }

  /** The categories that occur in some row. */
  function CategoriesOf(es: seq<Expense>): set<string>
  {
    set i | 0 <= i < |es| :: es[i].category
  }

  /** Removing the first row from a category's rows takes off its amount, if it is
      of that category. */
  lemma CategoryTotalHead(es: seq<Expense>, c: string)
    requires es != []
    ensures CategoryTotal(es, c) ==
      (if es[0].category == c then es[0].amount else 0.0) + CategoryTotal(es[1..], c)
  {
  }

  /** A category no row has sums to zero. */
  lemma CategoryTotalAbsent(es: seq<Expense>, c: string)
    requires c !in CategoriesOf(es)
    ensures CategoryTotal(es, c) == 0.0
  {
    SelectEmptyIff(es, InCategory(c));
  }

  lemma CategoriesHead(es: seq<Expense>)
    requires es != []
    ensures CategoriesOf(es) == CategoriesOf(es[1..]) + {es[0].category}
  {
    forall x | x in CategoriesOf(es) ensures x in CategoriesOf(es[1..]) + {es[0].category} {
      var i :| 0 <= i < |es| && es[i].category == x;
      if i > 0 {
        assert es[1..][i - 1].category == x;
      }
    }
    forall x | x in CategoriesOf(es[1..]) ensures x in CategoriesOf(es) {
      var i :| 0 <= i < |es[1..]| && es[1..][i].category == x;
      assert es[i + 1].category == x;
    }
  }

  /** Adds x to c's entry, creating the entry when c has none. */
  function AddTo(m: map<string, real>, c: string, x: real): (r: map<string, real>)
    ensures r.Keys == m.Keys + {c}
    ensures r[c] == x + (if c in m then m[c] else 0.0)
    ensures forall d :: d in m && d != c ==> r[d] == m[d]
  {
    m[c := x + (if c in m then m[c] else 0.0)]
  }

  /** Adding the first row's amount to its category's entry in the sums of the
      other rows gives the category totals of all rows. */
  lemma GroupSumsStep(es: seq<Expense>, rest: map<string, real>)
    requires es != []
    requires rest.Keys == CategoriesOf(es[1..])
    requires forall c :: c in rest ==> rest[c] == CategoryTotal(es[1..], c)
    ensures AddTo(rest, es[0].category, es[0].amount).Keys == CategoriesOf(es)
    ensures forall d :: d in AddTo(rest, es[0].category, es[0].amount) ==>
      AddTo(rest, es[0].category, es[0].amount)[d] == CategoryTotal(es, d)
  {
    var c := es[0].category;
    var m := AddTo(rest, c, es[0].amount);
    CategoriesHead(es);
    forall d | d in m ensures m[d] == CategoryTotal(es, d) {
      CategoryTotalHead(es, d);
      if d == c && c !in rest {
        CategoryTotalAbsent(es[1..], c);
      }
    }
  }

  /** groupby("category").sum(), built row by row. */
  function GroupSums(es: seq<Expense>): map<string, real>
  {
    if es == [] then map[] else AddTo(GroupSums(es[1..]), es[0].category, es[0].amount)
  }

  /** One entry per category that occurs, holding the sum of that category's
      amounts; categories without rows are absent. */
  lemma {:induction false} GroupSumsSpec(es: seq<Expense>)
    ensures GroupSums(es).Keys == CategoriesOf(es)
    ensures forall c :: c in GroupSums(es) ==> GroupSums(es)[c] == CategoryTotal(es, c)
  {
    if es != [] {
      GroupSumsSpec(es[1..]);
      GroupSumsStep(es, GroupSums(es[1..]));
    }
  }

  /** The sum of the category totals over a list of categories. */
  function SumTotals(es: seq<Expense>, keys: seq<string>): real
  {
    if keys == [] then 0.0 else CategoryTotal(es, keys[0]) + SumTotals(es, keys[1..])
  }

  /** The sum of the entries of m at the given keys. */
  function SumAt(m: map<string, real>, keys: seq<string>): real
    requires forall i :: 0 <= i < |keys| ==> keys[i] in m
  {
    if keys == [] then 0.0 else m[keys[0]] + SumAt(m, keys[1..])
  }

  lemma {:induction false} SumTotalsEmpty(keys: seq<string>)
    ensures SumTotals([], keys) == 0.0
  {
    if keys != [] {
      SumTotalsEmpty(keys[1..]);
      assert Select([], InCategory(keys[0])) == [];
    }
  }

  /** Over distinct categories, the first row's amount is counted once if its
      category is listed and not at all otherwise. */
  lemma {:induction false} SumTotalsHead(es: seq<Expense>, keys: seq<string>)
    requires es != [] && Distinct(keys)
    ensures SumTotals(es, keys) ==
      (if es[0].category in keys then es[0].amount else 0.0) + SumTotals(es[1..], keys)
  {
    if keys != [] {
      CategoryTotalHead(es, keys[0]);
      assert Distinct(keys[1..]);
      SumTotalsHead(es, keys[1..]);
      assert es[0].category in keys <==> es[0].category == keys[0] || es[0].category in keys[1..];
      assert es[0].category == keys[0] ==> es[0].category !in keys[1..];
    }
  }

  /** Summed over distinct categories that cover every row, the category totals
      give the overall total. */
  lemma {:induction false} SumTotalsCover(es: seq<Expense>, keys: seq<string>)
    requires Distinct(keys)
    requires forall i :: 0 <= i < |es| ==> es[i].category in keys
    ensures SumTotals(es, keys) == Total(es)
  {
    if es == [] {
      SumTotalsEmpty(keys);
    } else {
      SumTotalsHead(es, keys);
      assert forall i :: 0 <= i < |es[1..]| ==> es[1..][i] == es[i + 1];
      SumTotalsCover(es[1..], keys);
    }
  }

  lemma {:induction false} SumAtTotals(es: seq<Expense>, keys: seq<string>)
    requires forall i :: 0 <= i < |keys| ==> keys[i] in GroupSums(es)
    ensures SumAt(GroupSums(es), keys) == SumTotals(es, keys)
  {
    GroupSumsSpec(es);
    if keys != [] {
      SumAtTotals(es, keys[1..]);
    }
  }

  /** The per-category sums add up to the overall total: listing each category of
      the result once, in any order, and adding its sums gives Total(es). */
  lemma GroupSumsAddUp(es: seq<Expense>, keys: seq<string>)
    requires Distinct(keys)
    requires forall i :: 0 <= i < |keys| ==> keys[i] in GroupSums(es)
    requires forall c :: c in GroupSums(es) ==> c in keys
    ensures SumAt(GroupSums(es), keys) == Total(es)
  {
    SumAtTotals(es, keys);
    GroupSumsSpec(es);
    forall i | 0 <= i < |es| ensures es[i].category in keys {
      assert es[i].category in CategoriesOf(es);
    }
    SumTotalsCover(es, keys);
  }

  /** Food 10 + 5 and Rent 20 group to {Food: 15, Rent: 20}. */
  lemma GroupSumsExample()
    ensures GroupSums([Expense(1, "2024-01-05", "Food", 10.0, ""),
                       Expense(2, "2024-01-06", "Food", 5.0, ""),
                       Expense(3, "2024-02-01", "Rent", 20.0, "")])
            == map["Food" := 15.0, "Rent" := 20.0]
  {
    var a, b, c := Expense(1, "2024-01-05", "Food", 10.0, ""),
                   Expense(2, "2024-01-06", "Food", 5.0, ""),
                   Expense(3, "2024-02-01", "Rent", 20.0, "");
    var es := [a, b, c];
    assert es[1..] == [b, c] && [b, c][1..] == [c] && [c][1..] == [];
    var none: seq<Expense> := [];
    assert GroupSums(none) == map[];
    var m3 := GroupSums([c]);
    assert m3 == AddTo(GroupSums(none), "Rent", 20.0);
    var m2 := GroupSums([b, c]);
    assert m2 == AddTo(m3, "Food", 5.0);
    assert GroupSums(es) == AddTo(m2, "Food", 10.0);
  }
}
