/** What `app()` shows for the filtered table (SBAK.py:83-96): nothing but a
    warning when no row is left; otherwise the total spent, the number of
    transactions, the spending per category (when there is a `category` column)
    and the spending per day in date order. The charts and the formatting are
    not modelled, only the figures they are drawn from. */
module Aggregate {
  import opened Outcome
  import opened Frame
  import opened Filter

  // ---- Groups of sums ----

  /** One row of a `groupby(...).sum()` result: a key and the sum of its amounts. */
  datatype Group<K> = Group(key: K, sum: real)

  function Keys<K>(gs: seq<Group<K>>): (ks: seq<K>)
    ensures |ks| == |gs| && forall i :: 0 <= i < |gs| ==> ks[i] == gs[i].key
  {
    if gs == [] then [] else [gs[0].key] + Keys(gs[1..])
  }

  predicate Distinct<K(==)>(ks: seq<K>) {
    forall i, j :: 0 <= i < j < |ks| ==> ks[i] != ks[j]
  }

  predicate Ascending(ks: seq<int>) {
    forall i, j :: 0 <= i < j < |ks| ==> ks[i] < ks[j]
  }

  /** A key put in front of distinct keys it is not among keeps them distinct. */
  lemma DistinctCons<K>(x: K, xs: seq<K>)
    requires x !in xs && Distinct(xs)
    ensures Distinct([x] + xs)
  {
    var ys := [x] + xs;
    forall i, j | 0 <= i < j < |ys| ensures ys[i] != ys[j] {
      if i == 0 {
        assert ys[j] == xs[j - 1];
      } else {
        assert ys[i] == xs[i - 1] && ys[j] == xs[j - 1];
      }
    }
  }

  /** A day put in front of later ascending days keeps them ascending. */
  lemma AscendingCons(x: int, xs: seq<int>)
    requires Ascending(xs) && forall y :: y in xs ==> x < y
    ensures Ascending([x] + xs)
  {
    var ys := [x] + xs;
    forall i, j | 0 <= i < j < |ys| ensures ys[i] < ys[j] {
      assert ys[j] == xs[j - 1] && ys[j] in xs;
      if i > 0 {
        assert ys[i] == xs[i - 1];
      }
    }
  }

  /** The sum shown for key `k`; a key without a group shows nothing, that is 0. */
  function SumOf<K(==)>(gs: seq<Group<K>>, k: K): real {
    if gs == [] then 0.0 else if gs[0].key == k then gs[0].sum else SumOf(gs[1..], k)
  }

  /** The sum of all the groups. */
  function Total<K>(gs: seq<Group<K>>): real {
    if gs == [] then 0.0 else gs[0].sum + Total(gs[1..])
  }

  /** Adds `v` to the group of `k`, opening a new last group for a new key. */
  function AddTo<K(==)>(gs: seq<Group<K>>, k: K, v: real): seq<Group<K>> {
    if gs == [] then [Group(k, v)]
    else if gs[0].key == k then [Group(k, gs[0].sum + v)] + gs[1..]
    else [gs[0]] + AddTo(gs[1..], k, v)
  }

  /** Adds `v` to the group of day `d`, opening a new group in date order. */
  function InsertDay(gs: seq<Group<int>>, d: int, v: real): seq<Group<int>> {
    if gs == [] then [Group(d, v)]
    else if gs[0].key == d then [Group(d, gs[0].sum + v)] + gs[1..]
    else if d < gs[0].key then [Group(d, v)] + gs
    else [gs[0]] + InsertDay(gs[1..], d, v)
  }

  /** Adding to a group changes the sum of its key, and no other, by `v`; the
      keys gain `k`; the total grows by `v`. */
  lemma {:induction false} AddToFacts<K>(gs: seq<Group<K>>, k: K, v: real)
    ensures forall x :: SumOf(AddTo(gs, k, v), x) == SumOf(gs, x) + (if x == k then v else 0.0)
    ensures forall x :: x in Keys(AddTo(gs, k, v)) <==> x in Keys(gs) || x == k
    ensures Total(AddTo(gs, k, v)) == Total(gs) + v
    ensures Distinct(Keys(gs)) ==> Distinct(Keys(AddTo(gs, k, v)))
  {
    if gs != [] {
      var r := AddTo(gs, k, v);
      if gs[0].key == k {
        assert r[1..] == gs[1..];
      } else {
        AddToFacts(gs[1..], k, v);
        assert r[1..] == AddTo(gs[1..], k, v);
        if Distinct(Keys(gs)) {
          assert Keys(gs) == [gs[0].key] + Keys(gs[1..]);
          assert Distinct(Keys(gs[1..])) by {
            assert forall i :: 0 <= i < |gs| - 1 ==> Keys(gs[1..])[i] == Keys(gs)[i + 1];
          }
          assert gs[0].key !in Keys(gs[1..]);
          DistinctCons(gs[0].key, Keys(r[1..]));
        }
      }
    }
  }

  /** A key without a group shows 0. */
  lemma {:induction false} SumOfAbsent<K>(gs: seq<Group<K>>, k: K)
    requires k !in Keys(gs)
    ensures SumOf(gs, k) == 0.0
  {
    if gs != [] {
      assert Keys(gs)[0] == gs[0].key;
      assert forall y :: y in Keys(gs[1..]) ==> y in Keys(gs) by {
        assert Keys(gs) == [gs[0].key] + Keys(gs[1..]);
      }
      SumOfAbsent(gs[1..], k);
    }
  }

  /** Inserting a day's amount adds `d` to the days and `v` to the total. */
  lemma {:induction false} InsertDayKeys(gs: seq<Group<int>>, d: int, v: real)
    ensures forall x :: x in Keys(InsertDay(gs, d, v)) <==> x in Keys(gs) || x == d
    ensures Total(InsertDay(gs, d, v)) == Total(gs) + v
  {
    if gs != [] {
      var r := InsertDay(gs, d, v);
      assert Keys(gs) == [gs[0].key] + Keys(gs[1..]);
      if gs[0].key == d {
        assert r[1..] == gs[1..];
      } else if d < gs[0].key {
        assert r[1..] == gs;
      } else {
        InsertDayKeys(gs[1..], d, v);
        assert r[1..] == InsertDay(gs[1..], d, v);
      }
    }
  }

  /** The days after the first of ascending days are ascending and later than it. */
  lemma AscendingTail(ks: seq<int>)
    requires Ascending(ks) && ks != []
    ensures Ascending(ks[1..]) && forall y :: y in ks[1..] ==> ks[0] < y
  {
    forall i, j | 0 <= i < j < |ks| - 1 ensures ks[1..][i] < ks[1..][j] {
      assert ks[1..][i] == ks[i + 1] && ks[1..][j] == ks[j + 1];
    }
  }

  /** Inserting a day's amount into ascending days keeps them ascending. */
  lemma {:induction false} InsertDayAscending(gs: seq<Group<int>>, d: int, v: real)
    requires Ascending(Keys(gs))
    ensures Ascending(Keys(InsertDay(gs, d, v)))
  {
    if gs != [] {
      var r := InsertDay(gs, d, v);
      assert Keys(gs) == [gs[0].key] + Keys(gs[1..]);
      if gs[0].key == d {
        assert Keys(r) == Keys(gs);
      } else if d < gs[0].key {
        assert r[1..] == gs;
        assert forall y :: y in Keys(gs) ==> gs[0].key <= y;
        AscendingCons(d, Keys(gs));
      } else {
        AscendingTail(Keys(gs));
        assert Keys(gs)[1..] == Keys(gs[1..]);
        InsertDayAscending(gs[1..], d, v);
        InsertDayKeys(gs[1..], d, v);
        assert r == [gs[0]] + InsertDay(gs[1..], d, v);
        assert Keys(r) == [gs[0].key] + Keys(InsertDay(gs[1..], d, v));
        AscendingCons(gs[0].key, Keys(InsertDay(gs[1..], d, v)));
      }
    }
  }

  /** Inserting a day's amount into ascending days changes that day's sum, and no
      other, by `v`. */
  lemma {:induction false} InsertDaySums(gs: seq<Group<int>>, d: int, v: real)
    requires Ascending(Keys(gs))
    ensures forall x :: SumOf(InsertDay(gs, d, v), x) == SumOf(gs, x) + (if x == d then v else 0.0)
  {
    if gs != [] {
      var r := InsertDay(gs, d, v);
      assert Keys(gs) == [gs[0].key] + Keys(gs[1..]);
      if gs[0].key == d {
        assert r[1..] == gs[1..];
      } else if d < gs[0].key {
        assert r[1..] == gs;
        assert forall y :: y in Keys(gs) ==> gs[0].key <= y;
        SumOfAbsent(gs, d);
      } else {
        assert Ascending(Keys(gs[1..])) by {
          assert forall i :: 0 <= i < |gs| - 1 ==> Keys(gs[1..])[i] == Keys(gs)[i + 1];
        }
        InsertDaySums(gs[1..], d, v);
        assert r[1..] == InsertDay(gs[1..], d, v);
      }
    }
  }

  // ---- Columns as numbers ----

  /** The amount a cell contributes to a sum: `sum()` skips missing values. */
  function Value(c: Cell): real {
    if c.Num? then c.value else 0.0
  }

  /** `sum()` of a column of amounts. */
  function Sum(amounts: seq<Cell>): real {
    if amounts == [] then 0.0 else Sum(amounts[..|amounts| - 1]) + Value(amounts[|amounts| - 1])
  }

  /** The sum of the amounts of the rows whose key is `k`. */
  function SumWhere(keys: seq<Cell>, amounts: seq<Cell>, k: Cell): real
    requires |keys| == |amounts|
  {
    if keys == [] then 0.0
    else
      var n := |keys| - 1;
      SumWhere(keys[..n], amounts[..n], k) + (if keys[n] == k then Value(amounts[n]) else 0.0)
  }

  /** The first row whose amount is neither a number nor missing: `sum()` on such
      a column raises, or yields text that the `,.2f` format rejects. */
  function FirstNonNumeric(amounts: seq<Cell>): (r: Option<nat>)
    ensures r.None? <==> forall i :: 0 <= i < |amounts| ==> amounts[i].Num? || amounts[i].NA?
    ensures r.Some? ==> r.value < |amounts| && !amounts[r.value].Num? && !amounts[r.value].NA?
    ensures r.Some? ==> forall i :: 0 <= i < r.value ==> amounts[i].Num? || amounts[i].NA?
  {
    if amounts == [] then None
    else if !amounts[0].Num? && !amounts[0].NA? then Some(0)
    else match FirstNonNumeric(amounts[1..])
      case None => None
      case Some(i) => Some(i + 1)
  }

  // ---- Line 91: spending per category ----

  /** `groupby("category")["amount"].sum()`: one group per category, rows without
      a category left out. */
  function ByCategory(keys: seq<Cell>, amounts: seq<Cell>): seq<Group<Cell>>
    requires |keys| == |amounts|
  {
    if keys == [] then []
    else
      var n := |keys| - 1;
      var g := ByCategory(keys[..n], amounts[..n]);
      if keys[n] == NA then g else AddTo(g, keys[n], Value(amounts[n]))
  }

  /** The category groups are the distinct categories present; each shows the
      sum of its rows; together with the rows without a category they make up
      the total. */
  lemma {:induction false} ByCategoryFacts(keys: seq<Cell>, amounts: seq<Cell>)
    requires |keys| == |amounts|
    ensures var g := ByCategory(keys, amounts);
      && Distinct(Keys(g))
      && (forall k :: k in Keys(g) <==> k in keys && k != NA)
      && (forall k :: k != NA ==> SumOf(g, k) == SumWhere(keys, amounts, k))
      && Total(g) + SumWhere(keys, amounts, NA) == Sum(amounts)
  {
    if keys != [] {
      var n := |keys| - 1;
      ByCategoryFacts(keys[..n], amounts[..n]);
      assert amounts[..n] == amounts[..|amounts| - 1];
      assert forall k :: k in keys <==> k in keys[..n] || k == keys[n] by {
        assert keys == keys[..n] + [keys[n]];
      }
      if keys[n] != NA {
        AddToFacts(ByCategory(keys[..n], amounts[..n]), keys[n], Value(amounts[n]));
      }
    }
  }

  // ---- Line 95: spending per day ----

  /** `.dt.date` of a date cell: the day of a timestamp; NaT has none. */
  function DayOf(c: Cell): Option<int> {
    if c.Stamp? then Some(c.seconds / Day) else None
  }

  /** `groupby(date.dt.date)["amount"].sum()`: one group per day, in date order. */
  function ByDay(dates: seq<Cell>, amounts: seq<Cell>): seq<Group<int>>
    requires |dates| == |amounts|
  {
    if dates == [] then []
    else
      var n := |dates| - 1;
      var g := ByDay(dates[..n], amounts[..n]);
      match DayOf(dates[n])
      case None => g
      case Some(d) => InsertDay(g, d, Value(amounts[n]))
  }

  /** Some row is dated on day `d`. */
  predicate HasDay(dates: seq<Cell>, d: int) {
    exists i :: 0 <= i < |dates| && DayOf(dates[i]) == Some(d)
  }

  /** The days of the rows are those of all rows but the last, and that of the last. */
  lemma HasDaySnoc(dates: seq<Cell>, d: int)
    requires dates != []
    ensures HasDay(dates, d) <==> HasDay(dates[..|dates| - 1], d) || DayOf(dates[|dates| - 1]) == Some(d)
  {
    var n := |dates| - 1;
    if HasDay(dates, d) {
      var i :| 0 <= i < |dates| && DayOf(dates[i]) == Some(d);
      if i < n {
        assert DayOf(dates[..n][i]) == Some(d);
      }
    }
    if HasDay(dates[..n], d) {
      var i :| 0 <= i < n && DayOf(dates[..n][i]) == Some(d);
      assert DayOf(dates[i]) == Some(d);
    }
  }

  /** The sum of the amounts of the rows dated on day `d`. */
  function SumOnDay(dates: seq<Cell>, amounts: seq<Cell>, d: int): real
    requires |dates| == |amounts|
  {
    if dates == [] then 0.0
    else
      var n := |dates| - 1;
      SumOnDay(dates[..n], amounts[..n], d) + (if DayOf(dates[n]) == Some(d) then Value(amounts[n]) else 0.0)
  }

  /** The sum of the amounts of the rows with a known date. */
  function SumDated(dates: seq<Cell>, amounts: seq<Cell>): real
    requires |dates| == |amounts|
  {
    if dates == [] then 0.0
    else
      var n := |dates| - 1;
      SumDated(dates[..n], amounts[..n]) + (if dates[n].Stamp? then Value(amounts[n]) else 0.0)
  }

  /** The days are ascending; they are the days of the dated rows; each shows the
      sum of its rows; together they make up the amounts of the dated rows. */
  lemma {:induction false} ByDayFacts(dates: seq<Cell>, amounts: seq<Cell>)
    requires |dates| == |amounts|
    ensures var g := ByDay(dates, amounts);
      && Ascending(Keys(g))
      && (forall d :: d in Keys(g) <==> HasDay(dates, d))
      && (forall d :: SumOf(g, d) == SumOnDay(dates, amounts, d))
      && Total(g) == SumDated(dates, amounts)
  {
    if dates != [] {
      var n := |dates| - 1;
      ByDayFacts(dates[..n], amounts[..n]);
      var g := ByDay(dates[..n], amounts[..n]);
      if DayOf(dates[n]).Some? {
        InsertDayKeys(g, DayOf(dates[n]).value, Value(amounts[n]));
        InsertDayAscending(g, DayOf(dates[n]).value, Value(amounts[n]));
        InsertDaySums(g, DayOf(dates[n]).value, Value(amounts[n]));
      }
      forall d ensures HasDay(dates, d) <==> HasDay(dates[..n], d) || DayOf(dates[n]) == Some(d) {
        HasDaySnoc(dates, d);
      }
    }
  }

  /** When every row is dated, the days make up the whole sum. */
  lemma {:induction false} AllDated(dates: seq<Cell>, amounts: seq<Cell>)
    requires |dates| == |amounts|
    requires forall i :: 0 <= i < |dates| ==> dates[i].Stamp?
    ensures SumDated(dates, amounts) == Sum(amounts)
  {
    if dates != [] {
      var n := |dates| - 1;
      AllDated(dates[..n], amounts[..n]);
      assert amounts[..n] == amounts[..|amounts| - 1];
    }
  }

  /** When no row lacks a category, the categories make up the whole sum. */
  lemma {:induction false} NoMissingKey(keys: seq<Cell>, amounts: seq<Cell>)
    requires |keys| == |amounts| && NA !in keys
    ensures SumWhere(keys, amounts, NA) == 0.0
  {
    if keys != [] {
      var n := |keys| - 1;
      assert keys[n] in keys;
      assert forall c :: c in keys[..n] ==> c in keys;
      NoMissingKey(keys[..n], amounts[..n]);
    }
  }

  // ---- Lines 83-96 ----

  /** The figures behind the metrics and the charts. */
  datatype Summary = Summary(
    total: real,
    count: nat,
    byCategory: Option<seq<Group<Cell>>>,
    byDay: seq<Group<int>>)

  /** What the page shows: the warning of line 103, the summary, or the
      exception that stops the script. */
  datatype View = NoRecords | Shown(summary: Summary) | Failed(error: Error)

  /** Lines 83-96 in order: the empty check, the total (a missing `amount` column
      is a `KeyError`, a non-numeric one an error of `sum` or of the format), the
      count, the categories when there is a `category` column, and the days (a
      missing `date` column is a `KeyError`). */
  function Summarise(f: Table): (v: View)
    requires f.WellFormed()
    ensures v == NoRecords <==> f.rows == []
    ensures v.Shown? ==> v.summary.count == |f.rows|
    ensures v.Shown? ==> (v.summary.byCategory.Some? <==> "category" in f.names)
  {
    if f.rows == [] then NoRecords
    else if "amount" !in f.names then Failed(MissingColumn("amount"))
    else
      var amounts := Column(f, ColumnIndex(f.names, "amount").value);
      match FirstNonNumeric(amounts)
      case Some(i) => Failed(NonNumericAmount(i))
      case None =>
        var cats :=
          if "category" in f.names then Some(ByCategory(Column(f, ColumnIndex(f.names, "category").value), amounts))
          else None;
        if "date" !in f.names then Failed(MissingColumn("date"))
        else Shown(Summary(Sum(amounts), |f.rows|, cats, ByDay(Column(f, ColumnIndex(f.names, "date").value), amounts)))
  }

  /** The amounts of a table with an `amount` column. */
  function Amounts(f: Table): (a: seq<Cell>)
    requires f.WellFormed() && "amount" in f.names
    ensures |a| == |f.rows|
  {
    Column(f, ColumnIndex(f.names, "amount").value)
  }

  /** The errors come in the order of the script: no `amount` column first, then
      the first non-numeric amount, then no `date` column. */
  lemma SummariseFailures(f: Table)
    requires f.WellFormed() && f.rows != []
    ensures "amount" !in f.names ==> Summarise(f) == Failed(MissingColumn("amount"))
    ensures "amount" in f.names && FirstNonNumeric(Amounts(f)).Some? ==>
              Summarise(f) == Failed(NonNumericAmount(FirstNonNumeric(Amounts(f)).value))
    ensures "amount" in f.names && FirstNonNumeric(Amounts(f)).None? ==>
              (Summarise(f).Failed? <==> "date" !in f.names)
  {
  }

  /** The total is the sum of the amounts; the days shown are those of the dated
      rows, in ascending order, and each shows the sum of its rows. */
  lemma SummaryFigures(f: Table)
    requires f.WellFormed() && Summarise(f).Shown?
    ensures "amount" in f.names && "date" in f.names
    ensures var s := Summarise(f).summary;
      var dates := Column(f, ColumnIndex(f.names, "date").value);
      && s.total == Sum(Amounts(f))
      && Ascending(Keys(s.byDay))
      && (forall d :: d in Keys(s.byDay) <==> HasDay(dates, d))
      && (forall d :: SumOf(s.byDay, d) == SumOnDay(dates, Amounts(f), d))
      && Total(s.byDay) == SumDated(dates, Amounts(f))
  {
    ByDayFacts(Column(f, ColumnIndex(f.names, "date").value), Amounts(f));
  }

  /** The categories shown are those present, each once, with the sum of its
      rows; together with the rows without one they make up the total. */
  lemma SummaryCategories(f: Table)
    requires f.WellFormed() && Summarise(f).Shown? && "category" in f.names
    ensures "amount" in f.names
    ensures var s := Summarise(f).summary;
      var cats := Column(f, ColumnIndex(f.names, "category").value);
      && s.byCategory.Some?
      && Distinct(Keys(s.byCategory.value))
      && (forall k :: k in Keys(s.byCategory.value) <==> k in cats && k != NA)
      && (forall k :: k != NA ==> SumOf(s.byCategory.value, k) == SumWhere(cats, Amounts(f), k))
      && Total(s.byCategory.value) + SumWhere(cats, Amounts(f), NA) == s.total
  {
    ByCategoryFacts(Column(f, ColumnIndex(f.names, "category").value), Amounts(f));
  }

  /** When every row has a category, the categories add up to the total. */
  lemma NoMissingCategoryAddsUp(f: Table)
    requires f.WellFormed() && Summarise(f).Shown? && "category" in f.names
    requires forall x :: x in f.rows ==> x[ColumnIndex(f.names, "category").value] != NA
    ensures var s := Summarise(f).summary;
      s.byCategory.Some? && Total(s.byCategory.value) == s.total
  {
    var cats := Column(f, ColumnIndex(f.names, "category").value);
    forall i | 0 <= i < |cats| ensures cats[i] != NA {
      assert f.rows[i] in f.rows;
    }
    NoMissingKey(cats, Amounts(f));
    SummaryCategories(f);
  }

  /** After the date filter every row is dated, so the days add up to the total. */
  lemma FilteredDaysAddUp(t: Table, q: Query)
    requires t.WellFormed() && Summarise(Filtered(t, q)).Shown?
    ensures var s := Summarise(Filtered(t, q)).summary; Total(s.byDay) == s.total
  {
    var f := Filtered(t, q);
    var dates := Column(f, ColumnIndex(f.names, "date").value);
    forall i | 0 <= i < |dates| ensures dates[i].Stamp? {
      assert f.rows[i] in f.rows;
      KeptRowsInRange(t, q, f.rows[i]);
    }
    SummaryFigures(f);
    AllDated(dates, Amounts(f));
  }
}
