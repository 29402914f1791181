/** The sidebar filters of `app()` (SBAK.py:59-81): an inclusive date range, then
    up to three `isin` filters on `category`, `location` and `payment`, each one
    applied only when its column exists and something is selected. The widgets
    themselves are not modelled: what the user picked arrives as a `Query`. */
module Filter {
  import opened Outcome
  import opened Frame

  /** Seconds in a day. */
  const Day: int := 86400

  /** `pd.to_datetime(d)` for a calendar day `d` (days since the epoch): the
      timestamp of midnight at the start of that day. */
  function Midnight(d: int): int { d * Day }

  /** What the sidebar hands to the filter: the chosen start and end days and the
      three multiselect selections (empty when nothing is selected). */
  datatype Query = Query(start: int, end: int, categories: seq<Cell>, locations: seq<Cell>, payments: seq<Cell>)

  /** Cell `i` of a row, or NA past its end (never the case in a well-formed table). */
  function Get(row: seq<Cell>, i: nat): Cell {
    if i < |row| then row[i] else NA
  }

  // ---- Boolean-mask indexing ----

  /** `frame[mask]`: the rows for which `p` holds, in their original order and
      unchanged; a row that occurs several times is kept as often as it occurs. */
  function Select(xs: seq<seq<Cell>>, p: seq<Cell> -> bool): (r: seq<seq<Cell>>)
    ensures |r| <= |xs|
    ensures forall x :: x in r <==> x in xs && p(x)
    ensures forall x :: multiset(r)[x] == if p(x) then multiset(xs)[x] else 0
  {
    if xs == [] then []
    else
      var rest := Select(xs[1..], p);
      assert forall x :: x in xs <==> x == xs[0] || x in xs[1..];
      assert xs == [xs[0]] + xs[1..];
      assert multiset(xs) == multiset([xs[0]]) + multiset(xs[1..]);
      if p(xs[0]) then [xs[0]] + rest else rest
  }

  /** `a` is `b` with some elements left out, the others kept in order. */
  predicate SubseqOf(a: seq<seq<Cell>>, b: seq<seq<Cell>>)
    decreases |b|
  {
    if a == [] then true
    else if b == [] then false
    else (a[0] == b[0] && SubseqOf(a[1..], b[1..])) || SubseqOf(a, b[1..])
  }

  /** A subsequence is no longer than the sequence it is taken from. */
  lemma {:induction false} SubseqShorter(a: seq<seq<Cell>>, b: seq<seq<Cell>>)
    requires SubseqOf(a, b)
    ensures |a| <= |b|
    decreases |b|
  {
    if a != [] {
      if a[0] == b[0] && SubseqOf(a[1..], b[1..]) {
        SubseqShorter(a[1..], b[1..]);
      } else {
        SubseqShorter(a, b[1..]);
      }
    }
  }

  /** Mask indexing keeps rows in order: its result is a subsequence of its input. */
  lemma {:induction false} SelectSubseq(xs: seq<seq<Cell>>, p: seq<Cell> -> bool)
    ensures SubseqOf(Select(xs, p), xs)
  {
    if xs != [] {
      SelectSubseq(xs[1..], p);
    }
  }

  /** A stricter mask keeps a subsequence of what a looser one keeps. */
  lemma {:induction false} SelectMonotone(xs: seq<seq<Cell>>, p: seq<Cell> -> bool, q: seq<Cell> -> bool)
    requires forall x :: p(x) ==> q(x)
    ensures SubseqOf(Select(xs, p), Select(xs, q))
  {
    if xs != [] {
      SelectMonotone(xs[1..], p, q);
      var a := Select(xs[1..], p);
      var b := Select(xs[1..], q);
      if q(xs[0]) && !p(xs[0]) {
        assert ([xs[0]] + b)[1..] == b;
      }
    }
  }

  /** Masking twice is masking once with both conditions. */
  lemma {:induction false} SelectTwice(xs: seq<seq<Cell>>, p: seq<Cell> -> bool, q: seq<Cell> -> bool)
    ensures Select(Select(xs, p), q) == Select(xs, x => p(x) && q(x))
  {
    if xs != [] {
      SelectTwice(xs[1..], p, q);
      if p(xs[0]) {
        assert ([xs[0]] + Select(xs[1..], p))[1..] == Select(xs[1..], p);
      }
    }
  }

  /** A mask that rejects every row selects nothing. */
  lemma {:induction false} SelectNone(xs: seq<seq<Cell>>, p: seq<Cell> -> bool)
    requires forall x :: x in xs ==> !p(x)
    ensures Select(xs, p) == []
  {
    if xs != [] {
      assert forall x :: x in xs[1..] ==> x in xs;
      SelectNone(xs[1..], p);
    }
  }

  /** Two masks that agree on every row select the same rows. */
  lemma {:induction false} SelectSame(xs: seq<seq<Cell>>, p: seq<Cell> -> bool, q: seq<Cell> -> bool)
    requires forall x :: x in xs ==> p(x) == q(x)
    ensures Select(xs, p) == Select(xs, q)
  {
    if xs != [] {
      assert forall x :: x in xs[1..] ==> x in xs;
      SelectSame(xs[1..], p, q);
    }
  }

  // ---- The conditions of lines 63-81 ----

  /** Line 63 on one date cell: a timestamp between midnight of the start day and
      midnight of the end day, both included. NaT compares false. */
  predicate InRange(c: Cell, q: Query) {
    c.Stamp? && Midnight(q.start) <= c.seconds <= Midnight(q.end)
  }

  /** Line 63 on one row of a table with columns `names`. */
  predicate DateIn(names: seq<string>, q: Query, row: seq<Cell>) {
    "date" in names && InRange(Get(row, ColumnIndex(names, "date").value), q)
  }

  /** One of lines 65-81 on one row: a column that is absent, or a selection that
      is empty, lets the row through; otherwise its cell must be selected. */
  predicate Gate(names: seq<string>, col: string, sel: seq<Cell>, row: seq<Cell>) {
    col !in names || sel == [] || Get(row, ColumnIndex(names, col).value) in sel
  }

  /** Every condition of lines 63-81 at once. */
  predicate Keeps(names: seq<string>, q: Query, row: seq<Cell>) {
    && DateIn(names, q, row)
    && Gate(names, "category", q.categories, row)
    && Gate(names, "location", q.locations, row)
    && Gate(names, "payment", q.payments, row)
  }

  /** The mask of lines 63-81 as a whole. */
  function Mask(names: seq<string>, q: Query): seq<Cell> -> bool {
    row => Keeps(names, q, row)
  }

  /** The table `filtered` ends up as: the rows of `t` that meet every condition,
      in order; its columns are those of `t`. */
  function Filtered(t: Table, q: Query): (f: Table)
    ensures f.names == t.names
    ensures forall x :: x in f.rows <==> x in t.rows && Keeps(t.names, q, x)
    ensures forall x :: multiset(f.rows)[x] == if Keeps(t.names, q, x) then multiset(t.rows)[x] else 0
    ensures t.WellFormed() ==> f.WellFormed()
  {
    var rows := Select(t.rows, Mask(t.names, q));
    assert t.WellFormed() ==> forall x :: x in rows ==> |x| == |t.names|;
    Table(t.names, rows)
  }

  /** One `isin` filter of lines 65-81, applied to the table `filtered` holds. */
  function Narrow(f: Table, col: string, sel: seq<Cell>): Table {
    if col in f.names && sel != [] then
      var ci := ColumnIndex(f.names, col).value;
      Table(f.names, Select(f.rows, row => Get(row, ci) in sel))
    else f
  }

  /** One `isin` step adds its gate to the conditions already applied. */
  lemma NarrowStep(names: seq<string>, rows: seq<seq<Cell>>, p: seq<Cell> -> bool, col: string, sel: seq<Cell>)
    ensures Narrow(Table(names, Select(rows, p)), col, sel)
         == Table(names, Select(rows, x => p(x) && Gate(names, col, sel, x)))
  {
    if col in names && sel != [] {
      var ci := ColumnIndex(names, col).value;
      var m := (row: seq<Cell>) => Get(row, ci) in sel;
      SelectTwice(rows, p, m);
      SelectSame(rows, x => p(x) && m(x), x => p(x) && Gate(names, col, sel, x));
    } else {
      SelectSame(rows, p, x => p(x) && Gate(names, col, sel, x));
    }
  }

  /** Lines 63-81 as the script runs them: `filtered` is rebound once by the date
      range and once more by each `isin` filter that applies. */
  method Filter(t: Table, q: Query) returns (filtered: Table)
    ensures filtered == Filtered(t, q)
  {
    var range := (row: seq<Cell>) => DateIn(t.names, q, row);
    filtered := Table(t.names, Select(t.rows, range));
    var p1 := (x: seq<Cell>) => range(x) && Gate(t.names, "category", q.categories, x);
    var p2 := (x: seq<Cell>) => p1(x) && Gate(t.names, "location", q.locations, x);
    var p3 := (x: seq<Cell>) => p2(x) && Gate(t.names, "payment", q.payments, x);
    NarrowStep(t.names, t.rows, range, "category", q.categories);
    filtered := Narrow(filtered, "category", q.categories);
    NarrowStep(t.names, t.rows, p1, "location", q.locations);
    filtered := Narrow(filtered, "location", q.locations);
    NarrowStep(t.names, t.rows, p2, "payment", q.payments);
    filtered := Narrow(filtered, "payment", q.payments);
    SelectSame(t.rows, p3, Mask(t.names, q));
  }

  // ---- What the filters guarantee ----

  /** The filtered rows are rows of the table, in their original order. */
  lemma FilteredIsSubsequence(t: Table, q: Query)
    ensures SubseqOf(Filtered(t, q).rows, t.rows)
    ensures |Filtered(t, q).rows| <= |t.rows|
  {
    SelectSubseq(t.rows, Mask(t.names, q));
  }

  /** Every kept row has a known date within the range. */
  lemma KeptRowsInRange(t: Table, q: Query, x: seq<Cell>)
    requires x in Filtered(t, q).rows
    ensures "date" in t.names
    ensures var c := x[ColumnIndex(t.names, "date").value];
      c.Stamp? && Midnight(q.start) <= c.seconds <= Midnight(q.end)
  {
    var c := Get(x, ColumnIndex(t.names, "date").value);
    assert InRange(c, q);
  }

  /** A row with an unknown date is never kept. */
  lemma UnknownDateExcluded(t: Table, q: Query, i: nat)
    requires t.WellFormed() && "date" in t.names && i < |t.rows|
    requires t.rows[i][ColumnIndex(t.names, "date").value] == NA
    ensures t.rows[i] !in Filtered(t, q).rows
  {
  }

  /** The end of the range is midnight at the start of the end day, so a
      transaction later on that day is dropped. */
  lemma EndDayAfterMidnightExcluded(t: Table, q: Query, i: nat, secs: int)
    requires t.WellFormed() && "date" in t.names && i < |t.rows|
    requires 0 < secs && t.rows[i][ColumnIndex(t.names, "date").value] == Stamp(Midnight(q.end) + secs)
    ensures t.rows[i] !in Filtered(t, q).rows
  {
  }

  /** Nothing is kept when the range ends before it starts. */
  lemma EmptyRangeKeepsNothing(t: Table, q: Query)
    requires q.end < q.start
    ensures Filtered(t, q).rows == []
  {
    assert Midnight(q.end) < Midnight(q.start);
    SelectNone(t.rows, Mask(t.names, q));
  }

  /** With nothing selected the date range is the only condition, whatever columns
      the table has. */
  lemma EmptySelectionsOnlyRange(t: Table, start: int, end: int, x: seq<Cell>)
    ensures var q := Query(start, end, [], [], []);
      x in Filtered(t, q).rows <==> x in t.rows && DateIn(t.names, q, x)
  {
  }

  /** A selection on a column the table does not have changes nothing. */
  lemma AbsentColumnIgnored(t: Table, q: Query, sel: seq<Cell>)
    requires "location" !in t.names
    ensures Filtered(t, q.(locations := sel)) == Filtered(t, q)
  {
    forall x | x in t.rows ensures Keeps(t.names, q.(locations := sel), x) == Keeps(t.names, q, x) {
      assert Gate(t.names, "location", sel, x) && Gate(t.names, "location", q.locations, x);
    }
    SelectSame(t.rows, Mask(t.names, q.(locations := sel)), Mask(t.names, q));
  }

  /** `s` narrows `s0`: if `s0` constrains the column, so does `s`, within it. */
  predicate SelectionWithin(s: seq<Cell>, s0: seq<Cell>) {
    s0 == [] || (s != [] && forall c :: c in s ==> c in s0)
  }

  /** `q` asks for no more than `q0`: a range inside that of `q0`, and selections
      that narrow those of `q0`. */
  predicate Narrower(q: Query, q0: Query) {
    && q0.start <= q.start && q.end <= q0.end
    && SelectionWithin(q.categories, q0.categories)
    && SelectionWithin(q.locations, q0.locations)
    && SelectionWithin(q.payments, q0.payments)
  }

  /** Selecting more or narrowing the range never adds a row: the rows kept by the
      narrower query are a subsequence of those kept by the wider one. */
  lemma NarrowerKeepsFewer(t: Table, q: Query, q0: Query)
    requires Narrower(q, q0)
    ensures SubseqOf(Filtered(t, q).rows, Filtered(t, q0).rows)
    ensures |Filtered(t, q).rows| <= |Filtered(t, q0).rows|
  {
    assert Midnight(q0.start) <= Midnight(q.start) && Midnight(q.end) <= Midnight(q0.end);
    SelectMonotone(t.rows, Mask(t.names, q), Mask(t.names, q0));
    SubseqShorter(Filtered(t, q).rows, Filtered(t, q0).rows);
  }

  /** Masking a row followed by more rows. */
  lemma SelectCons(x: seq<Cell>, xs: seq<seq<Cell>>, p: seq<Cell> -> bool)
    ensures Select([x] + xs, p) == (if p(x) then [x] else []) + Select(xs, p)
  {
    assert ([x] + xs)[1..] == xs;
  }

  /** In a table whose only column is `date`, a row is kept exactly when its date
      is in range. */
  lemma OnlyDateColumn(q: Query, c: Cell)
    ensures Keeps(["date"], q, [c]) <==> InRange(c, q)
  {
    var names := ["date"];
    assert ColumnIndex(names, "date") == Some(0);
    assert "category" !in names && "location" !in names && "payment" !in names;
  }

  /** In a table whose only column is `date`, of three rows only the one dated
      in range is kept. */
  lemma KeepsFirstOfThree(q: Query, c0: Cell, c1: Cell, c2: Cell)
    requires InRange(c0, q) && !InRange(c1, q) && !InRange(c2, q)
    ensures Filtered(Table(["date"], [[c0], [c1], [c2]]), q).rows == [[c0]]
  {
    var p := Mask(["date"], q);
    OnlyDateColumn(q, c0);
    OnlyDateColumn(q, c1);
    OnlyDateColumn(q, c2);
    SelectCons([c2], [], p);
    SelectCons([c1], [[c2]], p);
    SelectCons([c0], [[c1], [c2]], p);
    assert [[c0]] + [[c1], [c2]] == [[c0], [c1], [c2]];
  }

  /** Three transactions, on day `d`, on the day after, and with an unreadable
      date: a range of the single day `d` keeps the first one only. */
  lemma OneDayRange(d: int)
    ensures var t := Table(["date"], [[Stamp(Midnight(d))], [Stamp(Midnight(d + 1))], [NA]]);
      Filtered(t, Query(d, d, [], [], [])).rows == [[Stamp(Midnight(d))]]
  {
    var q := Query(d, d, [], [], []);
    assert !InRange(Stamp(Midnight(d + 1)), q);
    KeepsFirstOfThree(q, Stamp(Midnight(d)), Stamp(Midnight(d + 1)), NA);
  }

  // ---- The options of the multiselects (lines 66, 72, 78) ----

  /** `Series.dropna().unique()`: the distinct non-missing cells. */
  function Unique(xs: seq<Cell>): (r: seq<Cell>)
    ensures forall c :: c in r <==> c in xs && c != NA
    ensures forall i, j :: 0 <= i < j < |r| ==> r[i] != r[j]
  {
    if xs == [] then []
    else
      var r := Unique(xs[..|xs| - 1]);
      var c := xs[|xs| - 1];
      assert xs == xs[..|xs| - 1] + [c];
      if c == NA || c in r then r else r + [c]
  }

  /** The options a multiselect offers for column `col`. */
  function Choices(t: Table, col: string): (r: seq<Cell>)
    requires t.WellFormed() && col in t.names
    ensures NA !in r
    ensures forall c :: c in r <==> c != NA && exists i :: 0 <= i < |t.rows| && t.rows[i][ColumnIndex(t.names, col).value] == c
  {
    var ci := ColumnIndex(t.names, col).value;
    var xs := Column(t, ci);
    assert forall c :: c in xs <==> exists i :: 0 <= i < |t.rows| && t.rows[i][ci] == c;
    Unique(xs)
  }

  /** A category selection taken from the offered choices never holds NA, so a
      row without a category is dropped as soon as a category is selected. */
  lemma MissingCategoryExcluded(t: Table, q: Query, i: nat)
    requires t.WellFormed() && "category" in t.names && i < |t.rows|
    requires q.categories != [] && forall c :: c in q.categories ==> c in Choices(t, "category")
    requires t.rows[i][ColumnIndex(t.names, "category").value] == NA
    ensures t.rows[i] !in Filtered(t, q).rows
  {
  }
}
