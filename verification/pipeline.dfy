/** The script end to end on a loaded file (SBAK.py:47-96): normalise, filter,
    summarise. */
module Pipeline {
  import opened Outcome
  import opened Frame
  import opened Filter
  import opened Aggregate

  /** Where the derived `amount` column sits after normalisation. */
  lemma AmountColumnOfNormalised(t: Table, parse: Cell -> Option<int>)
    requires t.WellFormed() && Normalised(t, parse).Ok?
    requires var ns := NormaliseNames(t.names); "amount" !in ns && "message" in ns
    ensures ColumnIndex(Normalised(t, parse).value.names, "amount") == Some(|t.names|)
  {
    var ns := NormaliseNames(t.names);
    NormalisedNames(t, parse);
    var y: seq<string> := if "category" !in ns then ["category"] else [];
    assert Normalised(t, parse).value.names == (ns + ["amount"]) + y;
    ColumnIndexAfter(ns, ["amount"], "amount");
    ColumnIndexAppend(ns + ["amount"], y, "amount");
  }

  /** Every derived amount is a number. */
  lemma AmountCellsOfNormalised(t: Table, parse: Cell -> Option<int>)
    requires t.WellFormed() && Normalised(t, parse).Ok?
    requires var ns := NormaliseNames(t.names); "amount" !in ns && "message" in ns
    ensures var n := Normalised(t, parse).value;
      forall x: seq<Cell> :: x in n.rows ==> |t.names| < |x| && x[|t.names|].Num?
  {
    DerivedAmounts(t, parse);
  }

  /** Where the derived `category` column sits after normalisation. */
  lemma CategoryColumnOfNormalised(t: Table, parse: Cell -> Option<int>)
    requires t.WellFormed() && Normalised(t, parse).Ok?
    requires var ns := NormaliseNames(t.names); "category" !in ns && "message" in ns
    ensures var n := Normalised(t, parse).value;
      ColumnIndex(n.names, "category") == Some(|n.names| - 1)
  {
    var n := Normalised(t, parse).value;
    var ns := NormaliseNames(t.names);
    NormalisedNames(t, parse);
    var x: seq<string> := if "amount" !in ns then ["amount"] else [];
    assert n.names == (ns + x) + ["category"];
    assert "category" !in ns + x;
    ColumnIndexAfter(ns + x, ["category"], "category");
  }

  /** Every derived category is a text. */
  lemma CategoryCellsOfNormalised(t: Table, parse: Cell -> Option<int>)
    requires t.WellFormed() && Normalised(t, parse).Ok?
    requires var ns := NormaliseNames(t.names); "category" !in ns && "message" in ns
    ensures var n := Normalised(t, parse).value;
      forall x: seq<Cell> :: x in n.rows ==> |n.names| - 1 < |x| && x[|n.names| - 1].Str?
  {
    DerivedCategories(t, parse);
  }

  /** A file with messages and no amounts, once normalised, always gets either
      the warning or a summary, whatever the filters: every amount is a number
      and the `date` column exists. */
  lemma DerivedAmountsAlwaysSummarised(t: Table, parse: Cell -> Option<int>, q: Query)
    requires t.WellFormed() && Normalised(t, parse).Ok?
    requires var ns := NormaliseNames(t.names); "amount" !in ns && "message" in ns
    ensures var v := Summarise(Filtered(Normalised(t, parse).value, q));
      v.NoRecords? || v.Shown?
  {
    var n := Normalised(t, parse).value;
    var f := Filtered(n, q);
    AmountColumnOfNormalised(t, parse);
    AmountCellsOfNormalised(t, parse);
    NormalisedNames(t, parse);
    NormalisedOk(t, parse);
    assert "date" in n.names;
    if f.rows != [] {
      var amounts := Amounts(f);
      forall i | 0 <= i < |amounts| ensures amounts[i].Num? {
        assert f.rows[i] in n.rows;
      }
      SummariseFailures(f);
    }
  }

  /** When the categories were derived from the messages, every filtered row has
      one, so the category sums add up to the total. */
  lemma DerivedCategoriesAddUp(t: Table, parse: Cell -> Option<int>, q: Query)
    requires t.WellFormed() && Normalised(t, parse).Ok?
    requires var ns := NormaliseNames(t.names); "category" !in ns && "message" in ns
    requires Summarise(Filtered(Normalised(t, parse).value, q)).Shown?
    ensures var s := Summarise(Filtered(Normalised(t, parse).value, q)).summary;
      s.byCategory.Some? && Total(s.byCategory.value) == s.total
  {
    var n := Normalised(t, parse).value;
    CategoryColumnOfNormalised(t, parse);
    CategoryCellsOfNormalised(t, parse);
    NoMissingCategoryAddsUp(Filtered(n, q));
  }
}
