/** The expense table and the normalisation `app()` applies to it after loading
    (SBAK.py:47-57): column names are stripped and lower-cased, the `date` column is
    converted to timestamps, and `amount` and `category` are derived from `message`
    when the file does not carry them. */
module Frame {
  import opened Text
  import opened Outcome
  import opened Amount
  import opened Categorise

  /** One cell of the table. `NA` is pandas' missing value (NaN, or NaT in a date
      column); `Stamp` is a timestamp in seconds since the epoch. */
  datatype Cell = NA | Str(text: string) | Num(value: real) | Stamp(seconds: int)

  /** A table held row by row: column names, and one cell per column in each row. */
  datatype Table = Table(names: seq<string>, rows: seq<seq<Cell>>) {
    predicate WellFormed() {
      forall r :: 0 <= r < |rows| ==> |rows[r]| == |names|
    }
  }

  /** The position of the first column called `n` at or after `from`. */
  function IndexFrom(names: seq<string>, n: string, from: nat): (r: Option<nat>)
    requires from <= |names|
    ensures r.None? <==> n !in names[from..]
    ensures r.Some? ==> from <= r.value < |names| && names[r.value] == n
    ensures r.Some? ==> forall k :: from <= k < r.value ==> names[k] != n
    decreases |names| - from
  {
    if from == |names| then None
    else if names[from] == n then Some(from)
    else
      assert names[from..] == [names[from]] + names[from + 1..];
      IndexFrom(names, n, from + 1)
  }

  /** `df[n]` looks a column up by name; the first column of that name is taken. */
  function ColumnIndex(names: seq<string>, n: string): (r: Option<nat>)
    ensures r.None? <==> n !in names
    ensures r.Some? ==> r.value < |names| && names[r.value] == n
    ensures r.Some? ==> forall k :: 0 <= k < r.value ==> names[k] != n
  {
    assert names[0..] == names;
    IndexFrom(names, n, 0)
  }

  /** The cells of column `i`, top to bottom. */
  function Column(t: Table, i: nat): (c: seq<Cell>)
    requires t.WellFormed() && i < |t.names|
    ensures |c| == |t.rows| && forall r :: 0 <= r < |t.rows| ==> c[r] == t.rows[r][i]
  {
    seq(|t.rows|, r requires 0 <= r < |t.rows| => t.rows[r][i])
  }

  /** Each row extended by the matching cell of `col`. */
  function Extend(rows: seq<seq<Cell>>, col: seq<Cell>): (rs: seq<seq<Cell>>)
    requires |col| == |rows|
    ensures |rs| == |rows| && forall r :: 0 <= r < |rows| ==> rs[r] == rows[r] + [col[r]]
  {
    seq(|rows|, r requires 0 <= r < |rows| => rows[r] + [col[r]])
  }

  /** `t` with the column `n` appended, holding `col`. */
  function AddColumn(t: Table, n: string, col: seq<Cell>): (u: Table)
    requires t.WellFormed() && |col| == |t.rows|
    ensures u.WellFormed() && u.names == t.names + [n] && |u.rows| == |t.rows|
    ensures forall r :: 0 <= r < |t.rows| ==> u.rows[r] == t.rows[r] + [col[r]]
  {
    Table(t.names + [n], Extend(t.rows, col))
  }

  // ---- Column names (line 47, and the rename of lines 49-50) ----

  /** `str.strip().str.lower()` on one column name. */
  function NormaliseName(n: string): string {
    Lower(Trim(n))
  }

  /** A normalised name has no upper-case letter. */
  lemma NormaliseNameLower(n: string)
    ensures forall k :: 0 <= k < |NormaliseName(n)| ==> !IsUpper(NormaliseName(n)[k])
  {
  }

  function NormaliseNames(names: seq<string>): (ns: seq<string>)
    ensures |ns| == |names| && forall i :: 0 <= i < |names| ==> ns[i] == NormaliseName(names[i])
  {
    seq(|names|, i requires 0 <= i < |names| => NormaliseName(names[i]))
  }

  /** `rename(columns={'Date': 'date'})`: every column called "Date" is renamed. */
  function RenameDate(names: seq<string>): (ns: seq<string>)
    ensures |ns| == |names|
    ensures forall i :: 0 <= i < |names| ==> ns[i] == if names[i] == "Date" then "date" else names[i]
  {
    seq(|names|, i requires 0 <= i < |names| => if names[i] == "Date" then "date" else names[i])
  }

  /** The table after lines 47-50. */
  function Renamed(t: Table): (u: Table)
    ensures u.rows == t.rows && |u.names| == |t.names|
  {
    var ns := NormaliseNames(t.names);
    if "date" !in ns && "Date" in ns then Table(RenameDate(ns), t.rows) else Table(ns, t.rows)
  }

  /** Once the names are lower-cased no column can be called "Date", so the rename of
      lines 49-50 never fires. */
  lemma {:induction false} RenameIsDead(t: Table)
    ensures "Date" !in NormaliseNames(t.names)
    ensures Renamed(t) == Table(NormaliseNames(t.names), t.rows)
  {
    var ns := NormaliseNames(t.names);
    forall i | 0 <= i < |ns| ensures ns[i] != "Date" {
      NormaliseNameLower(t.names[i]);
      if |ns[i]| > 0 {
        assert !IsUpper(ns[i][0]);
      }
    }
  }

  // ---- The date column (line 51) ----

  /** `pd.to_datetime(..., errors='coerce')` on one cell: `parse` stands for pandas'
      date parser; a cell it cannot read, and a missing cell, become NaT. */
  function ToDatetime(parse: Cell -> Option<int>, c: Cell): (d: Cell)
    ensures d.Stamp? || d.NA?
    ensures c.NA? ==> d.NA?
    ensures !c.NA? && parse(c).None? ==> d.NA?
    ensures !c.NA? && parse(c).Some? ==> d == Stamp(parse(c).value)
  {
    if c.NA? then NA
    else match parse(c)
      case None => NA
      case Some(s) => Stamp(s)
  }

  /** Column `i` of every row run through `ToDatetime`; the other cells are kept. */
  function ConvertColumn(rows: seq<seq<Cell>>, i: nat, parse: Cell -> Option<int>): (rs: seq<seq<Cell>>)
    requires forall r :: 0 <= r < |rows| ==> i < |rows[r]|
    ensures |rs| == |rows|
    ensures forall r :: 0 <= r < |rows| ==> rs[r] == rows[r][i := ToDatetime(parse, rows[r][i])]
  {
    seq(|rows|, r requires 0 <= r < |rows| => rows[r][i := ToDatetime(parse, rows[r][i])])
  }

  /** Line 51: the `date` column converted in place; a table without one fails with
      the `KeyError` of `df['date']`. */
  function WithDates(t: Table, parse: Cell -> Option<int>): (r: Result<Table>)
    requires t.WellFormed()
    ensures r.Err? <==> "date" !in t.names
    ensures r.Err? ==> r.error == MissingColumn("date")
    ensures r.Ok? ==> r.value.WellFormed() && r.value.names == t.names && |r.value.rows| == |t.rows|
  {
    match ColumnIndex(t.names, "date")
    case None => Err(MissingColumn("date"))
    case Some(i) => Ok(Table(t.names, ConvertColumn(t.rows, i, parse)))
  }

  // ---- Derived columns (lines 53-57) ----

  /** `str(msg)` as far as the two helpers can tell: a message that is not text
      (NaN, or a number) holds neither a rupee sign nor a keyword, like "nan". */
  function MessageText(c: Cell): string {
    if c.Str? then c.text else "nan"
  }

  /** `extract_amount` on the message of a row, as the cell it writes. */
  function AmountCell(c: Cell): (r: Result<Cell>)
    ensures r.Ok? ==> r.value.Num? && r.value.value >= 0.0
  {
    match ExtractAmount(MessageText(c))
    case Ok(v) => Ok(Num(v))
    case Err(e) => Err(e)
  }

  /** A message that is not text reads as "nan": no amount and no category. */
  lemma NonTextMessage(c: Cell)
    requires !c.Str?
    ensures AmountCell(c) == Ok(Num(0.0))
    ensures Categorize(MessageText(c)) == Others
  {
    assert MessageText(c) == "nan";
    assert Rupee !in "nan";
    ExtractAmountSpec("nan");
    assert Lower("nan") == "nan";
    forall k | 0 <= k < |AllKeywords| ensures !Contains(Lower("nan"), AllKeywords[k]) {
      assert |AllKeywords[k]| > 3;
    }
    OthersWithoutKeywords("nan");
  }

  /** `Series.apply(f)` for an `f` that may raise: `f` is applied to the cells in
      order, and the first failure ends the whole application. */
  function Applied(xs: seq<Cell>, f: Cell -> Result<Cell>): (r: Result<seq<Cell>>)
    ensures r.Ok? ==> |r.value| == |xs|
    ensures r.Ok? ==> forall k :: 0 <= k < |xs| ==> f(xs[k]) == Ok(r.value[k])
    ensures r.Err? ==> exists k ::
              && 0 <= k < |xs| && f(xs[k]) == Err(r.error)
              && forall j :: 0 <= j < k ==> f(xs[j]).Ok?
  {
    if xs == [] then Ok([])
    else match f(xs[0])
      case Err(e) => Err(e)
      case Ok(v) =>
        match Applied(xs[1..], f)
        case Err(e) =>
          assert forall k :: 1 <= k < |xs| ==> xs[1..][k - 1] == xs[k];
          Err(e)
        case Ok(rest) => Ok([v] + rest)
  }

  /** When `f` succeeds on every cell, so does the application. */
  lemma {:induction false} AppliedAllOk(xs: seq<Cell>, f: Cell -> Result<Cell>)
    requires forall k :: 0 <= k < |xs| ==> f(xs[k]).Ok?
    ensures Applied(xs, f).Ok?
  {
    if xs != [] {
      assert f(xs[0]).Ok?;
      assert forall k :: 0 <= k < |xs[1..]| ==> xs[1..][k] == xs[k + 1];
      AppliedAllOk(xs[1..], f);
    }
  }

  /** The first cell on which `f` fails decides the error. */
  lemma AppliedFirstFailure(xs: seq<Cell>, f: Cell -> Result<Cell>, i: nat)
    requires i < |xs| && f(xs[i]).Err?
    requires forall j :: 0 <= j < i ==> f(xs[j]).Ok?
    ensures Applied(xs, f) == Err(f(xs[i]).error)
  {
    var r := Applied(xs, f);
    if r.Err? {
      var k :| 0 <= k < |xs| && f(xs[k]) == Err(r.error) && forall j :: 0 <= j < k ==> f(xs[j]).Ok?;
      assert k == i;
    }
  }

  /** The loop behind `Series.apply(f)`. */
  method Apply(xs: seq<Cell>, f: Cell -> Result<Cell>) returns (r: Result<seq<Cell>>)
    ensures r == Applied(xs, f)
  {
    var col: seq<Cell> := [];
    var i := 0;
    while i < |xs|
      invariant 0 <= i <= |xs| && |col| == i
      invariant forall k :: 0 <= k < i ==> f(xs[k]) == Ok(col[k])
    {
      var y := f(xs[i]);
      if y.Err? {
        AppliedFirstFailure(xs, f, i);
        return Err(y.error);
      }
      col := col + [y.value];
      i := i + 1;
    }
    AppliedAllOk(xs, f);
    assert Applied(xs, f).value == col;
    return Ok(col);
  }

  /** Lines 53-54: an `amount` column read from the messages, added when the file has
      messages but no amounts. */
  function WithAmount(t: Table): (r: Result<Table>)
    requires t.WellFormed()
    ensures r.Ok? ==> r.value.WellFormed() && |r.value.rows| == |t.rows|
    ensures r.Ok? ==> r.value.names == t.names + (if "amount" !in t.names && "message" in t.names then ["amount"] else [])
    ensures r.Ok? ==> forall i, j :: 0 <= i < |t.rows| && 0 <= j < |t.names| ==> r.value.rows[i][j] == t.rows[i][j]
  {
    if "amount" !in t.names && "message" in t.names then
      match Applied(Column(t, ColumnIndex(t.names, "message").value), AmountCell)
      case Err(e) => Err(e)
      case Ok(col) => Ok(AddColumn(t, "amount", col))
    else Ok(t)
  }

  /** `df['message'].apply(fallback_categorize)`. */
  function CategoryCells(msgs: seq<Cell>): (c: seq<Cell>)
    ensures |c| == |msgs|
    ensures forall k :: 0 <= k < |msgs| ==> c[k] == Str(Name(Categorize(MessageText(msgs[k]))))
  {
    seq(|msgs|, k requires 0 <= k < |msgs| => Str(Name(Categorize(MessageText(msgs[k])))))
  }

  /** Lines 56-57: a `category` column added when the file has messages but no
      categories. */
  function WithCategory(t: Table): (u: Table)
    requires t.WellFormed()
    ensures u.WellFormed() && |u.rows| == |t.rows|
    ensures u.names == t.names + (if "category" !in t.names && "message" in t.names then ["category"] else [])
    ensures forall i, j :: 0 <= i < |t.rows| && 0 <= j < |t.names| ==> u.rows[i][j] == t.rows[i][j]
  {
    if "category" !in t.names && "message" in t.names then
      AddColumn(t, "category", CategoryCells(Column(t, ColumnIndex(t.names, "message").value)))
    else t
  }

  /** The whole of lines 47-57, in order; the first failing step decides the error. */
  function Normalised(t: Table, parse: Cell -> Option<int>): (r: Result<Table>)
    requires t.WellFormed()
    ensures r.Ok? ==> r.value.WellFormed() && |r.value.rows| == |t.rows|
  {
    match WithDates(Renamed(t), parse)
    case Err(e) => Err(e)
    case Ok(d) =>
      match WithAmount(d)
      case Err(e) => Err(e)
      case Ok(a) => Ok(WithCategory(a))
  }

  /** What the frame holds when a step fails: the steps before it have been applied
      (the column assignment of the failing step never happens). */
  function Interrupted(t: Table, parse: Cell -> Option<int>): Table
    requires t.WellFormed()
  {
    match WithDates(Renamed(t), parse)
    case Err(_) => Renamed(t)
    case Ok(d) => d
  }

  // ---- What the normaliser guarantees ----

  /** The table after line 51, for a file whose normalised names include `date`. */
  function Dated(t: Table, parse: Cell -> Option<int>): (d: Table)
    requires t.WellFormed() && "date" in NormaliseNames(t.names)
    ensures d.WellFormed() && d.names == NormaliseNames(t.names) && |d.rows| == |t.rows|
  {
    WithDates(Table(NormaliseNames(t.names), t.rows), parse).value
  }

  /** The messages of a file whose normalised names include `message`. */
  function Messages(t: Table): (m: seq<Cell>)
    requires t.WellFormed() && "message" in NormaliseNames(t.names)
    ensures |m| == |t.rows|
  {
    Column(Table(NormaliseNames(t.names), t.rows), ColumnIndex(NormaliseNames(t.names), "message").value)
  }

  /** With a `date` column the normaliser goes on to the derived columns. */
  lemma NormalisedSteps(t: Table, parse: Cell -> Option<int>)
    requires t.WellFormed() && "date" in NormaliseNames(t.names)
    ensures Normalised(t, parse) == match WithAmount(Dated(t, parse))
      case Err(e) => Err(e)
      case Ok(a) => Ok(WithCategory(a))
  {
    RenameIsDead(t);
  }

  /** A normaliser that succeeds found a `date` column and derived amounts. */
  lemma NormalisedOk(t: Table, parse: Cell -> Option<int>)
    requires t.WellFormed() && Normalised(t, parse).Ok?
    ensures "date" in NormaliseNames(t.names)
    ensures WithAmount(Dated(t, parse)).Ok?
    ensures Normalised(t, parse).value == WithCategory(WithAmount(Dated(t, parse)).value)
  {
    RenameIsDead(t);
  }

  /** The date column is converted; every other cell is the file's own. */
  lemma DatedCells(t: Table, parse: Cell -> Option<int>)
    requires t.WellFormed() && "date" in NormaliseNames(t.names)
    ensures var d := Dated(t, parse);
      var di := ColumnIndex(NormaliseNames(t.names), "date").value;
      forall i, j :: 0 <= i < |t.rows| && 0 <= j < |t.names| ==>
        d.rows[i][j] == if j == di then ToDatetime(parse, t.rows[i][j]) else t.rows[i][j]
  {
  }

  /** Line 51 leaves every column but the first `date` column as it was. */
  lemma DatesKeepColumn(u: Table, parse: Cell -> Option<int>, j: nat)
    requires u.WellFormed() && "date" in u.names && j < |u.names| && u.names[j] != "date"
    ensures Column(WithDates(u, parse).value, j) == Column(u, j)
  {
  }

  /** The messages of the dated table are those of the file. */
  lemma DatedMessages(t: Table, parse: Cell -> Option<int>)
    requires t.WellFormed()
    requires "date" in NormaliseNames(t.names) && "message" in NormaliseNames(t.names)
    ensures var d := Dated(t, parse);
      Column(d, ColumnIndex(d.names, "message").value) == Messages(t)
  {
    var ns := NormaliseNames(t.names);
    DatesKeepColumn(Table(ns, t.rows), parse, ColumnIndex(ns, "message").value);
  }

  /** The date column is converted, and every other cell the file held is kept. */
  lemma NormalisedKeepsCells(t: Table, parse: Cell -> Option<int>)
    requires t.WellFormed() && Normalised(t, parse).Ok?
    ensures "date" in NormaliseNames(t.names)
    ensures var n := Normalised(t, parse).value;
      var di := ColumnIndex(NormaliseNames(t.names), "date").value;
      forall i, j :: 0 <= i < |t.rows| && 0 <= j < |t.names| ==>
        n.rows[i][j] == if j == di then ToDatetime(parse, t.rows[i][j]) else t.rows[i][j]
  {
    NormalisedOk(t, parse);
    DatedCells(t, parse);
  }

  /** A name that is new and heads the appended columns is found at the join. */
  lemma ColumnIndexAfter(ns: seq<string>, extra: seq<string>, n: string)
    requires n !in ns && extra != [] && extra[0] == n
    ensures ColumnIndex(ns + extra, n) == Some(|ns|)
  {
    assert (ns + extra)[|ns|] == n;
    forall k | 0 <= k < |ns| ensures (ns + extra)[k] != n {
      assert (ns + extra)[k] == ns[k];
    }
  }

  /** Line 55 adds no `category` column and moves no message. */
  lemma AmountKeepsMessages(d: Table)
    requires d.WellFormed() && "message" in d.names && WithAmount(d).Ok?
    ensures var a := WithAmount(d).value;
      && ("category" in a.names <==> "category" in d.names)
      && ColumnIndex(a.names, "message") == ColumnIndex(d.names, "message")
      && Column(a, ColumnIndex(a.names, "message").value) == Column(d, ColumnIndex(d.names, "message").value)
  {
    var a := WithAmount(d).value;
    if "amount" !in d.names {
      assert a.names == d.names + ["amount"];
      ColumnIndexAppend(d.names, ["amount"], "message");
    }
  }

  /** The columns after normalisation: the normalised names of the file, then
      `amount` and `category` where they had to be derived. */
  lemma NormalisedNames(t: Table, parse: Cell -> Option<int>)
    requires t.WellFormed() && Normalised(t, parse).Ok?
    ensures var ns := NormaliseNames(t.names);
      Normalised(t, parse).value.names ==
        ns + (if "amount" !in ns && "message" in ns then ["amount"] else [])
           + (if "category" !in ns && "message" in ns then ["category"] else [])
  {
    var ns := NormaliseNames(t.names);
    NormalisedOk(t, parse);
    var d := Dated(t, parse);
    if "message" in ns {
      AmountKeepsMessages(d);
    }
  }

  /** Deriving amounts can only fail with the `ValueError` of `float`. */
  lemma AmountErrorIsNotANumber(msgs: seq<Cell>)
    ensures Applied(msgs, AmountCell).Err? ==> Applied(msgs, AmountCell).error.NotANumber?
  {
    var r := Applied(msgs, AmountCell);
    if r.Err? {
      var k :| 0 <= k < |msgs| && AmountCell(msgs[k]) == Err(r.error);
      ExtractAmountFailsOnlyInFloat(MessageText(msgs[k]));
    }
  }

  /** A file without a `date` column fails with the `KeyError` of line 51, and
      that is the only way it can fail with a missing column. */
  lemma MissingDateFails(t: Table, parse: Cell -> Option<int>)
    requires t.WellFormed()
    ensures Normalised(t, parse) == Err(MissingColumn("date")) <==> "date" !in NormaliseNames(t.names)
  {
    RenameIsDead(t);
    if "date" in NormaliseNames(t.names) {
      NormalisedSteps(t, parse);
      var d := Dated(t, parse);
      if "amount" !in d.names && "message" in d.names {
        AmountErrorIsNotANumber(Column(d, ColumnIndex(d.names, "message").value));
      }
    }
  }

  /** A file with messages but no amounts fails exactly when one of its messages
      does, with the error of the first one. */
  lemma DerivedAmountFailure(t: Table, parse: Cell -> Option<int>)
    requires t.WellFormed()
    requires var ns := NormaliseNames(t.names);
      "date" in ns && "amount" !in ns && "message" in ns
    ensures Normalised(t, parse).Err? <==> Applied(Messages(t), AmountCell).Err?
    ensures Normalised(t, parse).Err? ==> Normalised(t, parse).error == Applied(Messages(t), AmountCell).error
  {
    NormalisedSteps(t, parse);
    DatedMessages(t, parse);
  }

  /** Line 54 on any table with messages and no amounts: the new last column
      holds what `extract_amount` gives for the message of each row. */
  lemma AmountsOfMessages(d: Table)
    requires d.WellFormed() && "amount" !in d.names && "message" in d.names && WithAmount(d).Ok?
    ensures var msgs := Column(d, ColumnIndex(d.names, "message").value);
      forall i :: 0 <= i < |d.rows| ==> AmountCell(msgs[i]) == Ok(WithAmount(d).value.rows[i][|d.names|])
  {
  }

  /** A derived `amount` column, which comes right after the file's own columns,
      holds what `extract_amount` gives for each row's message. */
  lemma DerivedAmounts(t: Table, parse: Cell -> Option<int>)
    requires t.WellFormed() && Normalised(t, parse).Ok?
    requires var ns := NormaliseNames(t.names); "amount" !in ns && "message" in ns
    ensures var n := Normalised(t, parse).value;
      && |t.names| < |n.names|
      && forall i :: 0 <= i < |t.rows| ==> AmountCell(Messages(t)[i]) == Ok(n.rows[i][|t.names|])
  {
    NormalisedOk(t, parse);
    DatedMessages(t, parse);
    AmountsOfMessages(Dated(t, parse));
  }

  /** Appending columns does not move the first column of a name already present. */
  lemma ColumnIndexAppend(ns: seq<string>, extra: seq<string>, n: string)
    requires n in ns
    ensures ColumnIndex(ns + extra, n) == ColumnIndex(ns, n)
  {
    var i := ColumnIndex(ns, n).value;
    assert (ns + extra)[i] == n;
    var j := ColumnIndex(ns + extra, n).value;
    assert j <= i;
    assert ns[j] == n;
  }

  /** Lines 56-57 on any table with messages and no categories: the new last
      column holds the category of the message of each row. */
  lemma CategoriesOfMessages(a: Table)
    requires a.WellFormed() && "category" !in a.names && "message" in a.names
    ensures var mi := ColumnIndex(a.names, "message").value;
      forall i :: 0 <= i < |a.rows| ==>
        WithCategory(a).rows[i][|a.names|] == Str(Name(Categorize(MessageText(a.rows[i][mi]))))
  {
  }

  /** A derived `category` column holds the category `fallback_categorize` gives
      each row's message; it is the last column. */
  lemma DerivedCategories(t: Table, parse: Cell -> Option<int>)
    requires t.WellFormed() && Normalised(t, parse).Ok?
    requires var ns := NormaliseNames(t.names); "category" !in ns && "message" in ns
    ensures var n := Normalised(t, parse).value;
      && n.names[|n.names| - 1] == "category"
      && forall i :: 0 <= i < |t.rows| ==>
           n.rows[i][|n.names| - 1] == Str(Name(Categorize(MessageText(Messages(t)[i]))))
  {
    NormalisedOk(t, parse);
    DatedMessages(t, parse);
    AmountKeepsMessages(Dated(t, parse));
    CategoriesOfMessages(WithAmount(Dated(t, parse)).value);
  }

  /** The `df` of `app()`: its columns and rows change in place. */
  class DataFrame {
    var names: seq<string>
    var rows: seq<seq<Cell>>

    function Snapshot(): Table
      reads this
    {
      Table(names, rows)
    }

    /** `pd.read_csv`: the frame as loaded. */
    constructor(t: Table)
      ensures Snapshot() == t
    {
      names := t.names;
      rows := t.rows;
    }

    /** Lines 47-50: the column names stripped and lower-cased, then the rename of
        "Date" (which `RenameIsDead` shows can never apply). */
    method NormaliseColumns()
      modifies this
      ensures Snapshot() == Renamed(old(Snapshot()))
    {
      names := NormaliseNames(names);
      if "date" !in names && "Date" in names {
        names := RenameDate(names);
      }
    }

    /** Line 51: the `date` column converted to timestamps, or the `KeyError` when
        there is none. */
    method ConvertDates(parse: Cell -> Option<int>) returns (err: Option<Error>)
      requires Snapshot().WellFormed()
      modifies this
      ensures WithDates(old(Snapshot()), parse).Ok? ==>
        err.None? && Snapshot() == WithDates(old(Snapshot()), parse).value
      ensures WithDates(old(Snapshot()), parse).Err? ==>
        err == Some(WithDates(old(Snapshot()), parse).error) && Snapshot() == old(Snapshot())
    {
      var di := ColumnIndex(names, "date");
      if di.None? {
        return Some(MissingColumn("date"));
      }
      rows := ConvertColumn(rows, di.value, parse);
      return None;
    }

    /** Lines 53-54: the `amount` column derived from the messages when it is
        missing; on failure the frame is left as it was. */
    method AddAmounts() returns (err: Option<Error>)
      requires Snapshot().WellFormed()
      modifies this
      ensures WithAmount(old(Snapshot())).Ok? ==>
        err.None? && Snapshot() == WithAmount(old(Snapshot())).value
      ensures WithAmount(old(Snapshot())).Err? ==>
        err == Some(WithAmount(old(Snapshot())).error) && Snapshot() == old(Snapshot())
    {
      if "amount" !in names && "message" in names {
        var mi := ColumnIndex(names, "message").value;
        var col := Apply(Column(Snapshot(), mi), AmountCell);
        if col.Err? {
          return Some(col.error);
        }
        rows := Extend(rows, col.value);
        names := names + ["amount"];
      }
      return None;
    }

    /** Lines 56-57: the `category` column derived from the messages when it is
        missing. */
    method AddCategories()
      requires Snapshot().WellFormed()
      modifies this
      ensures Snapshot() == WithCategory(old(Snapshot()))
    {
      if "category" !in names && "message" in names {
        var mi := ColumnIndex(names, "message").value;
        var cats := CategoryCells(Column(Snapshot(), mi));
        rows := Extend(rows, cats);
        names := names + ["category"];
      }
    }

    /** Lines 47-57 run on the frame. `parse` stands for `pd.to_datetime`; the result
        is the error that ends `app()`, if any. */
    method Normalise(parse: Cell -> Option<int>) returns (err: Option<Error>)
      requires Snapshot().WellFormed()
      modifies this
      ensures Normalised(old(Snapshot()), parse).Ok? ==>
        err.None? && Snapshot() == Normalised(old(Snapshot()), parse).value
      ensures Normalised(old(Snapshot()), parse).Err? ==>
        err == Some(Normalised(old(Snapshot()), parse).error)
        && Snapshot() == Interrupted(old(Snapshot()), parse)
    {
      NormaliseColumns();
      err := ConvertDates(parse);
      if err.Some? {
        return;
      }
      err := AddAmounts();
      if err.Some? {
        return;
      }
      AddCategories();
    }
  }
}
