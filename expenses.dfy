/** The expense table of app.py: the file as it is found on disk, its
    migration to the five-column schema, the normalisation load applies,
    id assignment, and the store whose methods rewrite or append to the file. */
module Expenses {
  import opened Wrappers
  import opened Sequences
  import Text
  import Numbers

  /** An id or amount cell as read_csv yields it: an empty cell (NaN), a number
      (the whole column parsed as numeric), or text (the column held some
      non-numeric entry, so every cell of it is a string). */
  datatype Cell = Empty | Num(value: real) | Raw(text: string)

  /** A row of a legacy file, written before the id column existed. */
  datatype LegacyRow = LegacyRow(date: string, category: string, amount: Cell, description: string)

  /** A row of the file in the canonical column order id, date, category, amount, description. */
  datatype Row = Row(id: Cell, date: string, category: string, amount: Cell, description: string)

  /** A row after load_expenses has normalised it. */
  datatype Expense = Expense(id: int, date: string, category: string, amount: real, description: string)

  /** The expense file: missing, in the legacy four-column form, or canonical. */
  datatype ExpenseFile = Absent | Legacy(legacyRows: seq<LegacyRow>) | Canonical(rows: seq<Row>)

  datatype Error = MissingFields | InvalidAmount | ExpenseNotFound

  function IdOf(e: Expense): int
  {
    e.id
  }

  /** Ids are unique across the table. */
  predicate DistinctIds(es: seq<Expense>)
  {
    DistinctBy(es, IdOf)
  }

  /** The rows of one category (`df["category"] == c`). */
  function InCategory(c: string): Expense -> bool
  {
    (e: Expense) => e.category == c
  }

  // ---------------------------------------------------------------- migration

  /** The legacy rows with an id column inserted in front, numbered from `first`. */
  function Numbered(legacy: seq<LegacyRow>, first: int): (rows: seq<Row>)
    ensures |rows| == |legacy|
    ensures forall i :: 0 <= i < |legacy| ==>
      rows[i] == Row(Num((first + i) as real), legacy[i].date, legacy[i].category,
                     legacy[i].amount, legacy[i].description)
  {
    if legacy == [] then []
    else
      var r := legacy[0];
      [Row(Num(first as real), r.date, r.category, r.amount, r.description)] + Numbered(legacy[1..], first + 1)
  }

  /** ensure_expense_file: a missing file and an empty legacy file become the
      empty canonical table; a non-empty legacy file gets ids 1..N in row order;
      a file that already has the id column is left as it is. */
  function Migrate(f: ExpenseFile): (g: ExpenseFile)
    ensures g.Canonical?
    ensures f.Canonical? ==> g == f
    ensures f.Absent? ==> g.rows == []
  {
    match f
    case Absent => Canonical([])
    case Legacy(legacy) => if legacy == [] then Canonical([]) else Canonical(Numbered(legacy, 1))
    case Canonical(_) => f
  }

  /** Migration runs at most once: a migrated file is not touched again. */
  lemma MigrateIdempotent(f: ExpenseFile)
    ensures Migrate(Migrate(f)) == Migrate(f)
  {
  }

  // ------------------------------------------------------------ normalisation

  /** pd.to_numeric(errors="coerce"): None is the NaN an unparsable cell becomes. */
  function Coerce(c: Cell): Option<real>
  {
    match c
    case Empty => None
    case Num(x) => Some(x)
    case Raw(t) => Numbers.ParseDecimal(t)
  }

  /** to_numeric(...).fillna(0.0) */
  function NormalizeAmount(c: Cell): (r: real)
    ensures Coerce(c).None? ==> r == 0.0
    ensures Coerce(c).Some? ==> r == Coerce(c).value
  {
    Coerce(c).GetOr(0.0)
  }

  /** to_numeric(...).fillna(0).astype(int) */
  function NormalizeId(c: Cell): (r: int)
    ensures Coerce(c).None? ==> r == 0
    ensures Coerce(c).Some? && Coerce(c).value.Floor as real == Coerce(c).value ==> r == Coerce(c).value.Floor
  {
    Numbers.Trunc(Coerce(c).GetOr(0.0))
  }

  function NormalizeRow(r: Row): Expense
  {
    Expense(NormalizeId(r.id), r.date, r.category, NormalizeAmount(r.amount), r.description)
  }

  /** The dtype normalisation of load_expenses, row by row. */
  function Normalize(rows: seq<Row>): seq<Expense>
  {
    seq(|rows|, i requires 0 <= i < |rows| => NormalizeRow(rows[i]))
  }

  /** The row to_csv writes for a normalised expense: numeric id and amount. */
  function StoredRow(e: Expense): Row
  {
    Row(Num(e.id as real), e.date, e.category, Num(e.amount), e.description)
  }

  /** The table to_csv writes for a normalised frame. */
  function Store(es: seq<Expense>): seq<Row>
  {
    seq(|es|, i requires 0 <= i < |es| => StoredRow(es[i]))
  }

  /** What load_expenses returns for a file as found on disk. */
  function Loaded(f: ExpenseFile): seq<Expense>
  {
    Normalize(Migrate(f).rows)
  }

  /** Normalising a written-back table gives back exactly what was written. */
  lemma {:induction false} NormalizeStore(es: seq<Expense>)
    ensures Normalize(Store(es)) == es
  {
    forall i | 0 <= i < |es| ensures Normalize(Store(es))[i] == es[i] {
      Numbers.TruncInt(es[i].id);
    }
  }

  /** Normalisation is idempotent: normalising already-normalised rows changes nothing. */
  lemma NormalizeIdempotent(rows: seq<Row>)
    ensures Normalize(Store(Normalize(rows))) == Normalize(rows)
  {
    NormalizeStore(Normalize(rows));
  }

  /** In a column read as text (because some other cell of it is malformed), a
      well-formed id still normalises to its own value. */
  lemma NormalizeTextId(n: int)
    ensures NormalizeId(Raw(Numbers.FormatInt(n))) == n
  {
    Numbers.ParseFormatInt(n);
    Numbers.TruncInt(n);
  }

  lemma NormalizeAppend(rows: seq<Row>, extra: seq<Row>)
    ensures Normalize(rows + extra) == Normalize(rows) + Normalize(extra)
  {
  }

  /** Appending a written row appends its expense to what load returns. */
  lemma NormalizeAppendStored(rows: seq<Row>, e: Expense)
    ensures Normalize(rows + [StoredRow(e)]) == Normalize(rows) + [e]
  {
    NormalizeAppend(rows, [StoredRow(e)]);
    NormalizeStore([e]);
    assert Store([e]) == [StoredRow(e)];
  }

  /** The file after save_expense appends e: the migrated rows plus e's row. */
  function Appended(f: ExpenseFile, e: Expense): (g: ExpenseFile)
    ensures g.Canonical? && |g.rows| == |Migrate(f).rows| + 1
  {
    Canonical(Migrate(f).rows + [StoredRow(e)])
  }

  /** Appending e loads as the old expenses followed by e; when e takes the
      next id, unique ids stay unique. */
  lemma AppendedLoads(f: ExpenseFile, e: Expense)
    ensures Loaded(Appended(f, e)) == Loaded(f) + [e]
    ensures e.id == NextIdOf(Loaded(f)) && DistinctIds(Loaded(f)) ==> DistinctIds(Loaded(Appended(f, e)))
  {
    NormalizeAppendStored(Migrate(f).rows, e);
    if e.id == NextIdOf(Loaded(f)) && DistinctIds(Loaded(f)) {
      AppendNextIdDistinct(Loaded(f), e);
    }
  }

  /** A migrated legacy file loads with ids 1..N in row order, its other fields
      kept, so its ids are unique. */
  lemma {:induction false} MigrateNumbersRows(legacy: seq<LegacyRow>)
    ensures |Loaded(Legacy(legacy))| == |legacy|
    ensures forall i :: 0 <= i < |legacy| ==>
      Loaded(Legacy(legacy))[i] == Expense(i + 1, legacy[i].date, legacy[i].category,
                                           NormalizeAmount(legacy[i].amount), legacy[i].description)
    ensures DistinctIds(Loaded(Legacy(legacy)))
  {
    var es := Loaded(Legacy(legacy));
    forall i | 0 <= i < |legacy|
      ensures es[i] == Expense(i + 1, legacy[i].date, legacy[i].category,
                               NormalizeAmount(legacy[i].amount), legacy[i].description)
    {
      Numbers.TruncInt(i + 1);
    }
  }

  // ------------------------------------------------------------- id handling

  /** df["id"].max() */
  function MaxId(es: seq<Expense>): (m: int)
    requires es != []
    ensures forall i :: 0 <= i < |es| ==> es[i].id <= m
    ensures exists i :: 0 <= i < |es| && es[i].id == m
  {
    if |es| == 1 then es[0].id
    else
      var m := MaxId(es[1..]);
      assert forall i :: 1 <= i < |es| ==> es[i] == es[1..][i - 1];
      if es[0].id >= m then es[0].id else m
  }

  /** next_id: one more than the largest id, or 1 for an empty table; so it is
      larger than every id in the table. */
  function NextIdOf(es: seq<Expense>): (r: int)
    ensures forall i :: 0 <= i < |es| ==> es[i].id < r
    ensures es == [] ==> r == 1
    ensures es != [] ==> exists i :: 0 <= i < |es| && es[i].id == r - 1
  {
    if es == [] then 1 else MaxId(es) + 1
  }

  /** Appending a row with the next id keeps ids unique. */
  lemma AppendNextIdDistinct(es: seq<Expense>, e: Expense)
    requires DistinctIds(es)
    requires e.id == NextIdOf(es)
    ensures DistinctIds(es + [e])
  {
    var t := es + [e];
    forall i, j | 0 <= i < j < |t| ensures IdOf(t[i]) != IdOf(t[j]) {
      if j == |es| {
        assert t[i] == es[i];
      } else {
        assert t[i] == es[i] && t[j] == es[j];
      }
    }
  }

  /** The position of the first row with id k (`df.index[df["id"] == k][0]`). */
  function FirstWithId(es: seq<Expense>, k: int): (r: Option<nat>)
    ensures r.None? <==> forall i :: 0 <= i < |es| ==> es[i].id != k
    ensures r.Some? ==> r.value < |es| && es[r.value].id == k
    ensures r.Some? ==> forall j :: 0 <= j < r.value ==> es[j].id != k
  {
    if es == [] then None
    else if es[0].id == k then Some(0)
    else
      match FirstWithId(es[1..], k)
      case None => None
      case Some(i) => Some(i + 1)
  }

  /** df[df["id"] != k] */
  function WithoutId(es: seq<Expense>, k: int): seq<Expense>
  {
    Select(es, (e: Expense) => e.id != k)
  }

  /** Deleting removes every row with id k and keeps all other rows, in order. */
  lemma DeleteSpec(es: seq<Expense>, k: int)
    ensures SubsequenceOf(WithoutId(es, k), es)
    ensures forall i :: 0 <= i < |WithoutId(es, k)| ==> WithoutId(es, k)[i].id != k
    ensures forall e: Expense :: e.id != k ==> multiset(WithoutId(es, k))[e] == multiset(es)[e]
  {
    SelectCounts(es, (e: Expense) => e.id != k);
  }

  /** Deleting an id no row has leaves the table as it was. */
  lemma DeleteAbsent(es: seq<Expense>, k: int)
    requires forall i :: 0 <= i < |es| ==> es[i].id != k
    ensures WithoutId(es, k) == es
  {
    SelectAll(es, (e: Expense) => e.id != k);
  }

  /** Deleting keeps ids unique. */
  lemma DeleteDistinct(es: seq<Expense>, k: int)
    requires DistinctIds(es)
    ensures DistinctIds(WithoutId(es, k))
  {
    SelectDistinctBy(es, (e: Expense) => e.id != k, IdOf);
  }

  /** Ids are one more than the largest id, not a counter kept across
      deletions: for ids 1 and 2, deleting 2 hands out 2 again. */
  lemma DeletedMaxIdReused()
    ensures var a := Expense(1, "2024-01-05", "Food", 10.0, "");
      var b := Expense(2, "2024-02-01", "Rent", 20.0, "");
      NextIdOf([a, b]) == 3 && NextIdOf(WithoutId([a, b], 2)) == b.id
  {
    var a := Expense(1, "2024-01-05", "Food", 10.0, "");
    var b := Expense(2, "2024-02-01", "Rent", 20.0, "");
    SelectPair(a, b, (e: Expense) => e.id != 2);
    assert WithoutId([a, b], 2) == [a];
  }

  /** After the rows holding the largest id m >= 1 are deleted, the next id is
      at most m: it is no longer fresh against the deleted id. */
  lemma DeletedMaxIdNotFresh(es: seq<Expense>)
    requires es != [] && MaxId(es) >= 1
    ensures NextIdOf(WithoutId(es, MaxId(es))) <= MaxId(es)
  {
    var m := MaxId(es);
    var r := WithoutId(es, m);
    if r != [] {
      forall i | 0 <= i < |r|
        ensures r[i].id < m
      {
        SelectMember(es, (e: Expense) => e.id != m, r[i]);
      }
    }
  }

  /** Deleting an id no row has leaves the loaded table as it was, but the file
      is still rewritten from it: an id cell that was empty or text comes back
      as a number, so the file on disk changes. */
  lemma DeleteAbsentRewritesFile(f: ExpenseFile, k: int)
    requires f.Canonical? && exists i :: 0 <= i < |f.rows| && !f.rows[i].id.Num?
    requires forall i :: 0 <= i < |Loaded(f)| ==> Loaded(f)[i].id != k
    ensures Loaded(Canonical(Store(WithoutId(Loaded(f), k)))) == Loaded(f)
    ensures Canonical(Store(WithoutId(Loaded(f), k))) != f
  {
    DeleteAbsent(Loaded(f), k);
    NormalizeStore(Loaded(f));
    var written := Store(Loaded(f));
    var i :| 0 <= i < |f.rows| && !f.rows[i].id.Num?;
    if |written| == |f.rows| {
      assert written[i].id.Num?;
    }
  }

  /** The table with row i's date, category, amount and description replaced. */
  function Revised(es: seq<Expense>, i: nat, date: string, category: string, amount: real, description: string): seq<Expense>
    requires i < |es|
  {
    es[i := Expense(es[i].id, date, category, amount, description)]
  }

  /** Revising a row keeps every id where it was, so ids stay unique. */
  lemma RevisedDistinct(es: seq<Expense>, i: nat, date: string, category: string, amount: real, description: string)
    requires i < |es|
    requires DistinctIds(es)
    ensures DistinctIds(Revised(es, i, date, category, amount, description))
  {
    var t := Revised(es, i, date, category, amount, description);
    assert forall j :: 0 <= j < |t| ==> IdOf(t[j]) == IdOf(es[j]);
  }

  // ------------------------------------------------------------------- store

  /** The expense file and the operations app.py performs on it. */
  class ExpenseStore {
    var file: ExpenseFile

    constructor (onDisk: ExpenseFile)
      ensures file == onDisk
    {
      file := onDisk;
    }

    /** ensure_expense_file */
    method EnsureFile()
      modifies this
      ensures file == Migrate(old(file))
    {
      file := Migrate(file);
    }

    /** load_expenses */
    method Load() returns (es: seq<Expense>)
      modifies this
      ensures file == Migrate(old(file))
      ensures es == Loaded(old(file))
    {
      EnsureFile();
      es := Normalize(file.rows);
    }

    /** next_id */
    method NextId() returns (id: int)
      modifies this
      ensures file == Migrate(old(file))
      ensures id == NextIdOf(Loaded(old(file)))
    {
      var es := Load();
      id := NextIdOf(es);
    }

    /** save_expense: rejects a blank date, category or amount before touching
        the file; otherwise loads (migrating if need be), fails if the amount is
        not a number, and appends one row whose id is the next id. */
    method Save(date: string, category: string, amount: string, description: string) returns (r: Outcome<Error>)
      modifies this
      ensures Text.IsBlank(date) || Text.IsBlank(category) || Text.IsBlank(amount) ==>
        r == Fail(MissingFields) && file == old(file)
      ensures !Text.IsBlank(date) && !Text.IsBlank(category) && !Text.IsBlank(amount) &&
              Numbers.ParseDecimal(amount).None? ==>
        r == Fail(InvalidAmount) && file == Migrate(old(file))
      ensures !Text.IsBlank(date) && !Text.IsBlank(category) && Numbers.ParseDecimal(amount).Some? ==>
        r == Pass &&
        file == Appended(old(file), Expense(NextIdOf(Loaded(old(file))), date, category,
                                            Numbers.ParseDecimal(amount).value, description))
      ensures r == Pass && DistinctIds(Loaded(old(file))) ==> DistinctIds(Loaded(file))
    {
      if Text.IsBlank(date) || Text.IsBlank(category) || Text.IsBlank(amount) {
        return Fail(MissingFields);
      }
      ghost var f0 := file;
      var id := NextId();
      var parsed := Numbers.ParseDecimal(amount);
      if parsed.None? {
        return Fail(InvalidAmount);
      }
      var e := Expense(id, date, category, parsed.value, description);
      file := Canonical(file.rows + [StoredRow(e)]);
      assert file == Appended(f0, e);
      AppendedLoads(f0, e);
      r := Pass;
    }

    /** delete_expense: loads, drops every row with id k, and rewrites the file. */
    method Delete(k: int)
      modifies this
      ensures file == Canonical(Store(WithoutId(Loaded(old(file)), k)))
      ensures Loaded(file) == WithoutId(Loaded(old(file)), k)
      ensures DistinctIds(Loaded(old(file))) ==> DistinctIds(Loaded(file))
    {
      var es := Load();
      var kept := WithoutId(es, k);
      file := Canonical(Store(kept));
      NormalizeStore(kept);
      if DistinctIds(es) {
        DeleteDistinct(es, k);
      }
    }

    /** update_expense: loads, fails if no row has id k or the amount is not a
        number, otherwise replaces the first matching row's date, category,
        amount and description and rewrites the file. The row's id and
        position and every other row stay as they were. */
    method Update(k: int, date: string, category: string, amount: string, description: string) returns (r: Outcome<Error>)
      modifies this
      ensures FirstWithId(Loaded(old(file)), k).None? ==>
        r == Fail(ExpenseNotFound) && file == Migrate(old(file))
      ensures FirstWithId(Loaded(old(file)), k).Some? && Numbers.ParseDecimal(amount).None? ==>
        r == Fail(InvalidAmount) && file == Migrate(old(file))
      ensures FirstWithId(Loaded(old(file)), k).Some? && Numbers.ParseDecimal(amount).Some? ==>
        var es := Loaded(old(file));
        var i := FirstWithId(es, k).value;
        var after := Revised(es, i, date, category, Numbers.ParseDecimal(amount).value, description);
        r == Pass &&
        file == Canonical(Store(after)) &&
        Loaded(file) == after &&
        |after| == |es| && after[i].id == k &&
        (forall j :: 0 <= j < |es| && j != i ==> after[j] == es[j])
      ensures r == Pass && DistinctIds(Loaded(old(file))) ==> DistinctIds(Loaded(file))
    {
      var es := Load();
      var found := FirstWithId(es, k);
      if found.None? {
        return Fail(ExpenseNotFound);
      }
      var i := found.value;
      var parsed := Numbers.ParseDecimal(amount);
      if parsed.None? {
        return Fail(InvalidAmount);
      }
      var after := Revised(es, i, date, category, parsed.value, description);
      file := Canonical(Store(after));
      NormalizeStore(after);
      if DistinctIds(es) {
        RevisedDistinct(es, i, date, category, parsed.value, description);
      }
      r := Pass;
    }
  }
}
