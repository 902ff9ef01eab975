/** The two aggregation loops over the ledger: the totals loop that feeds the
    balance panel, and the loop that feeds the two charts (expenses by
    category, income against expense). The loops classify records
    differently; both rules are kept as written. */
module Aggregate {
  import opened Records
  import opened LedgerStore

  /** Which amounts a running total adds up. */
  datatype Measure =
    | PanelIncome                        // totals loop: type is "income"
    | PanelExpense                       // totals loop: any other type
    | ChartIncome                        // chart loop: any type but "expense"
    | ChartExpense                       // chart loop: type is "expense"
    | CategoryExpense(category: string)  // chart loop: one category's expenses
    | Unclassified                       // type neither "income" nor "expense"
    | Everything                         // every record

  /** What one record adds to a total of the given measure. */
  function Contribution(m: Measure, t: Transaction): int
  {
    match m
    case PanelIncome => if t.kind == "income" then t.amount else 0
    case PanelExpense => if t.kind == "income" then 0 else t.amount
    case ChartIncome => if t.kind == "expense" then 0 else t.amount
    case ChartExpense => if t.kind == "expense" then t.amount else 0
    case CategoryExpense(c) => if t.kind == "expense" && t.category == c then t.amount else 0
    case Unclassified => if t.kind == "income" || t.kind == "expense" then 0 else t.amount
    case Everything => t.amount
  }

  /** The measure summed over the ledger, first record first. */
  function Total(ts: seq<Transaction>, m: Measure): int
  {
    if ts == [] then 0 else Total(ts[..|ts| - 1], m) + Contribution(m, ts[|ts| - 1])
  }

  /** One more record of the ledger adds its contribution. */
  lemma TotalStep(ts: seq<Transaction>, i: nat, m: Measure)
    requires i < |ts|
    ensures Total(ts[..i + 1], m) == Total(ts[..i], m) + Contribution(m, ts[i])
  {
    assert ts[..i + 1][..i] == ts[..i];
  }

  /** Totals are additive over concatenation. */
  lemma {:induction false} TotalAppend(a: seq<Transaction>, b: seq<Transaction>, m: Measure)
    ensures Total(a + b, m) == Total(a, m) + Total(b, m)
  {
    if b == [] {
      assert a + b == a;
    } else {
      assert (a + b)[..|a + b| - 1] == a + b[..|b| - 1];
      TotalAppend(a, b[..|b| - 1], m);
    }
  }

  /** A total whose every contribution is zero is zero. */
  lemma {:induction false} TotalOfZeros(ts: seq<Transaction>, m: Measure)
    requires forall i :: 0 <= i < |ts| ==> Contribution(m, ts[i]) == 0
    ensures Total(ts, m) == 0
  {
    if ts != [] {
      TotalOfZeros(ts[..|ts| - 1], m);
    }
  }

  /** The totals loop puts every record on exactly one side, so income plus
      expense is the sum of all amounts. */
  lemma {:induction false} PanelPartition(ts: seq<Transaction>)
    ensures Total(ts, PanelIncome) + Total(ts, PanelExpense) == Total(ts, Everything)
  {
    if ts != [] {
      PanelPartition(ts[..|ts| - 1]);
    }
  }

  /** The chart loop also puts every record on exactly one side. */
  lemma {:induction false} ChartPartition(ts: seq<Transaction>)
    ensures Total(ts, ChartIncome) + Total(ts, ChartExpense) == Total(ts, Everything)
  {
    if ts != [] {
      ChartPartition(ts[..|ts| - 1]);
    }
  }

  /** Where the loops disagree: a record whose type is neither string is an
      expense for the balance panel and income for the bar chart. */
  lemma {:induction false} LoopsDiffer(ts: seq<Transaction>)
    ensures Total(ts, ChartIncome) == Total(ts, PanelIncome) + Total(ts, Unclassified)
    ensures Total(ts, PanelExpense) == Total(ts, ChartExpense) + Total(ts, Unclassified)
  {
    if ts != [] {
      LoopsDiffer(ts[..|ts| - 1]);
    }
  }

  /** On a ledger whose types are all "income" or "expense" the two loops
      agree. */
  lemma LoopsAgree(ts: seq<Transaction>)
    requires forall i :: 0 <= i < |ts| ==> ts[i].kind == "income" || ts[i].kind == "expense"
    ensures Total(ts, ChartIncome) == Total(ts, PanelIncome)
    ensures Total(ts, ChartExpense) == Total(ts, PanelExpense)
  {
    LoopsDiffer(ts);
    TotalOfZeros(ts, Unclassified);
  }

  /** A delete takes exactly the deleted records' contributions out of every
      total. */
  lemma {:induction false} TotalAfterDelete(ts: seq<Transaction>, id: int, m: Measure)
    ensures Total(WithoutId(ts, id), m) == Total(ts, m) - Total(WithId(ts, id), m)
  {
    if ts != [] {
      TotalAfterDelete(ts[1..], id, m);
      assert ts == [ts[0]] + ts[1..];
      TotalAppend([ts[0]], ts[1..], m);
      if ts[0].id == id {
        TotalAppend([ts[0]], WithId(ts[1..], id), m);
      } else {
        TotalAppend([ts[0]], WithoutId(ts[1..], id), m);
      }
    }
  }

  /** With unique ids, the records carrying a given record's id are that
      record alone. */
  lemma {:induction false} WithIdUnique(ts: seq<Transaction>, k: nat)
    requires UniqueIds(ts) && k < |ts|
    ensures WithId(ts, ts[k].id) == [ts[k]]
  {
    UniqueTail(ts);
    if k == 0 {
      WithAbsentId(ts[1..], ts[0].id);
      assert [ts[0]] + [] == [ts[0]];
    } else {
      assert ts[0].id != ts[k].id;
      assert ts[1..][k - 1] == ts[k];
      WithIdUnique(ts[1..], k - 1);
    }
  }

  /** Deleting one record of a ledger with unique ids lowers every total by
      that record's contribution. */
  lemma DeleteOneTotal(ts: seq<Transaction>, k: nat, m: Measure)
    requires UniqueIds(ts) && k < |ts|
    ensures Total(WithoutId(ts, ts[k].id), m) == Total(ts, m) - Contribution(m, ts[k])
  {
    TotalAfterDelete(ts, ts[k].id, m);
    WithIdUnique(ts, k);
    assert [ts[k]][..0] == [];
  }

  /** The categories of the ledger's "expense" records. */
  function ExpenseCategories(ts: seq<Transaction>): (cs: set<string>)
    ensures forall i :: 0 <= i < |ts| && ts[i].kind == "expense" ==> ts[i].category in cs
  {
    set i | 0 <= i < |ts| && ts[i].kind == "expense" :: ts[i].category
  }

  lemma ExpenseCategoriesStep(ts: seq<Transaction>, i: nat)
    requires i < |ts|
    ensures ExpenseCategories(ts[..i + 1]) ==
            ExpenseCategories(ts[..i]) + (if ts[i].kind == "expense" then {ts[i].category} else {})
  {
    var before, after := ts[..i], ts[..i + 1];
    forall c | c in ExpenseCategories(after)
      ensures c in ExpenseCategories(before) || (ts[i].kind == "expense" && c == ts[i].category)
    {
      var j :| 0 <= j < |after| && after[j].kind == "expense" && after[j].category == c;
      if j < i {
        assert before[j] == after[j];
      }
    }
    forall c | c in ExpenseCategories(before) ensures c in ExpenseCategories(after) {
      var j :| 0 <= j < |before| && before[j].kind == "expense" && before[j].category == c;
      assert after[j] == before[j];
    }
  }

  /** A category no expense record has totals zero. */
  lemma {:induction false} AbsentCategoryTotal(ts: seq<Transaction>, c: string)
    requires c !in ExpenseCategories(ts)
    ensures Total(ts, CategoryExpense(c)) == 0
  {
    forall i | 0 <= i < |ts| ensures Contribution(CategoryExpense(c), ts[i]) == 0 {
      assert ts[i].kind == "expense" ==> ts[i].category in ExpenseCategories(ts);
    }
    TotalOfZeros(ts, CategoryExpense(c));
  }

  /** `m` maps exactly the expense categories of `ts`, each to the sum of
      that category's expense amounts. */
  ghost predicate IsCategoryTotals(m: map<string, int>, ts: seq<Transaction>)
  {
    && m.Keys == ExpenseCategories(ts)
    && forall c :: c in m ==> m[c] == Total(ts, CategoryExpense(c))
  }

  /** An "expense" record adds its amount to its category's slot, creating
      the slot at zero when absent. */
  lemma CategoryStepExpense(ts: seq<Transaction>, i: nat, m: map<string, int>)
    requires i < |ts| && ts[i].kind == "expense"
    requires IsCategoryTotals(m, ts[..i])
    ensures var m' := m[ts[i].category := (if ts[i].category in m then m[ts[i].category] else 0) + ts[i].amount];
      IsCategoryTotals(m', ts[..i + 1]) && SumValues(m') == SumValues(m) + ts[i].amount
  {
    var t := ts[i];
    var m' := m[t.category := (if t.category in m then m[t.category] else 0) + t.amount];
    SumValuesUpdate(m, t.category, m'[t.category]);
    ExpenseCategoriesStep(ts, i);
    forall c | c in m' ensures m'[c] == Total(ts[..i + 1], CategoryExpense(c)) {
      TotalStep(ts, i, CategoryExpense(c));
      if c == t.category && t.category !in m {
        AbsentCategoryTotal(ts[..i], c);
      }
    }
  }

  /** Any other record leaves every category slot as it was. */
  lemma CategoryStepOther(ts: seq<Transaction>, i: nat, m: map<string, int>)
    requires i < |ts| && ts[i].kind != "expense"
    requires IsCategoryTotals(m, ts[..i])
    ensures IsCategoryTotals(m, ts[..i + 1])
  {
    ExpenseCategoriesStep(ts, i);
    forall c | c in m ensures m[c] == Total(ts[..i + 1], CategoryExpense(c)) {
      TotalStep(ts, i, CategoryExpense(c));
    }
  }

  /** The sum of a map's values. */
  ghost function SumValues(m: map<string, int>): int
    decreases |m|
  {
    if m == map[] then 0
    else
      var k :| k in m;
      m[k] + SumValues(m - {k})
  }

  lemma {:induction false} SumValuesRemove(m: map<string, int>, k: string)
    requires k in m
    ensures SumValues(m) == m[k] + SumValues(m - {k})
    decreases |m|
  {
    var j :| j in m && SumValues(m) == m[j] + SumValues(m - {j});
    if j != k {
      assert (m - {j}) - {k} == (m - {k}) - {j};
      SumValuesRemove(m - {j}, k);
      SumValuesRemove(m - {k}, j);
    }
  }

  lemma SumValuesUpdate(m: map<string, int>, k: string, v: int)
    ensures SumValues(m[k := v]) == SumValues(m) - (if k in m then m[k] else 0) + v
  {
    SumValuesRemove(m[k := v], k);
    assert m[k := v] - {k} == m - {k};
    if k in m {
      SumValuesRemove(m, k);
    } else {
      assert m - {k} == m;
    }
  }

  /** The totals loop of the list renderer: income, expense and the balance
      shown in the overview panel. */
  method PanelTotals(ts: seq<Transaction>) returns (income: int, expense: int, balance: int)
    ensures income == Total(ts, PanelIncome)
    ensures expense == Total(ts, PanelExpense)
    ensures balance == income - expense
    ensures income + expense == Total(ts, Everything)
    ensures ts == [] ==> income == 0 && expense == 0 && balance == 0
  {
    income, expense := 0, 0;
    var i := 0;
    while i < |ts|
      invariant 0 <= i <= |ts|
      invariant income == Total(ts[..i], PanelIncome)
      invariant expense == Total(ts[..i], PanelExpense)
    {
      TotalStep(ts, i, PanelIncome);
      TotalStep(ts, i, PanelExpense);
      if ts[i].kind == "income" {
        income := income + ts[i].amount;
      } else {
        expense := expense + ts[i].amount;
      }
      i := i + 1;
    }
    assert ts[..i] == ts;
    PanelPartition(ts);
    balance := income - expense;
  }

  /** The aggregation loop of the chart updater: per-category expense totals
      for the pie chart, and income and expense totals for the bar chart. */
  method ChartTotals(ts: seq<Transaction>)
    returns (categoryTotals: map<string, int>, totalIncome: int, totalExpense: int)
    ensures totalIncome == Total(ts, ChartIncome)
    ensures totalExpense == Total(ts, ChartExpense)
    ensures categoryTotals.Keys == ExpenseCategories(ts)
    ensures forall c :: c in categoryTotals ==> categoryTotals[c] == Total(ts, CategoryExpense(c))
    ensures SumValues(categoryTotals) == totalExpense
    ensures totalIncome + totalExpense == Total(ts, Everything)
    ensures ts == [] ==> categoryTotals == map[] && totalIncome == 0 && totalExpense == 0
  {
    categoryTotals := map[];
    totalIncome, totalExpense := 0, 0;
    var i := 0;
    assert ts[..i] == [];
    assert SumValues(categoryTotals) == 0;
    while i < |ts|
      invariant 0 <= i <= |ts|
      invariant totalIncome == Total(ts[..i], ChartIncome)
      invariant totalExpense == Total(ts[..i], ChartExpense)
      invariant IsCategoryTotals(categoryTotals, ts[..i])
      invariant SumValues(categoryTotals) == totalExpense
    {
      var t := ts[i];
      TotalStep(ts, i, ChartIncome);
      TotalStep(ts, i, ChartExpense);
      if t.kind == "expense" {
        CategoryStepExpense(ts, i, categoryTotals);
        var previous := if t.category in categoryTotals then categoryTotals[t.category] else 0;
        categoryTotals := categoryTotals[t.category := previous + t.amount];
        totalExpense := totalExpense + t.amount;
      } else {
        CategoryStepOther(ts, i, categoryTotals);
        totalIncome := totalIncome + t.amount;
      }
      i := i + 1;
    }
    assert ts[..i] == ts;
    assert IsCategoryTotals(categoryTotals, ts);
    ChartPartition(ts);
    if ts == [] {
      assert categoryTotals.Keys == {};
    }
  }
}
