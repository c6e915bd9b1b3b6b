# Expense tracker storage and query layer, in Dafny

This project models the non-UI part of `app.py`, a single-user desktop
expense tracker that keeps three CSV tables:

- **Expenses.** Rows of id, date, category, amount and description. They
  are created, listed, updated and deleted by id. A file written before the
  id column existed is migrated once by numbering its rows 1..N. Every
  load normalises the id and amount columns, so a malformed cell reads as
  0 instead of failing.
- **Query and aggregation.** The explorer's filter applies category
  equality ("All" turns it off), inclusive lexical date bounds and a
  case-insensitive substring search, one after another. The dashboard and
  summary show the total and the group-by-category sums.
- **Categories.** A name list seeded with six defaults. Each added name is
  stripped, must be non-blank and must be new.
- **Users.** Username and password-hash rows. Sign-up rejects blank and
  taken usernames. Log-in succeeds when some row holds both the username
  and the hash of the password.

Layout, one module per file:

| file | module | contents |
|---|---|---|
| `wrappers.dfy` | `Wrappers` | `Option`, `Outcome` |
| `sequences.dfy` | `Sequences` | `Select` (a pandas boolean mask `df[mask]`), subsequence and distinctness |
| `text.dfy` | `Text` | `str.strip`, `str.lower`, `in` and `<=` on `str`, on ASCII |
| `numbers.dfy` | `Numbers` | decimal numerals read by `float()` and `to_numeric`, integer formatting, `astype(int)` |
| `dates.dfy` | `Dates` | why lexical comparison orders `YYYY-MM-DD` dates chronologically |
| `expenses.dfy` | `Expenses` | the expense file, migration, normalisation, ids, and the `ExpenseStore` class |
| `query.dfy` | `Query` | the explorer filter |
| `summary.dfy` | `Summary` | total and per-category sums |
| `categories.dfy` | `Categories` | the `CategoryStore` class |
| `users.dfy` | `Users` | authentication and the `UserStore` class |

The three files are class fields: `ExpenseStore.file`,
`CategoryStore.names` and `UserStore.users`. The functions that change a
file (`save_expense`, `delete_expense`, `update_expense`,
`ensure_expense_file`, `save_category`, `save_user`) are methods on those
fields. Each method's `ensures` gives the new state as a function of the old
one, and the lemmas next to it prove what that function promises.

Loading is the pure function `Expenses.Loaded`. It migrates, then
normalises. An id or amount cell is a `Cell`:

- `Empty` is a NaN cell;
- `Num` is a value read from a numeric column;
- `Raw` is text, which is what every cell of a column holds once any cell
  of it does not parse.

The password hash is a function parameter of `Users.Authenticate` and of
`UserStore`.

## Model

| member | source | states |
|---|---|---|
| Expenses.Numbered | app.py:68 | the id column inserted in front: same length, row i gets id first+i and keeps its date, category, amount and description |
| Expenses.Migrate | app.py:58-69 | the result always has the id column; a file that already has it is returned as it is; a missing file becomes the empty canonical table |
| Expenses.MigrateIdempotent | app.py:63-64 | migrating a migrated file changes nothing |
| Expenses.MigrateNumbersRows | app.py:64-69 | a legacy table of N rows loads as N rows with ids 1..N in row order, other fields kept, ids unique |
| Expenses.Coerce | app.py:77 | `to_numeric(errors="coerce")` on one cell: an empty cell has no value, a numeric cell its number, a text cell what it parses to; its use is stated by NormalizeAmount and NormalizeId |
| Expenses.NormalizeRow | app.py:77-79 | one row's id and amount normalised, the other fields kept; stated through NormalizeStore and NormalizeTextId |
| Expenses.Normalize | app.py:75-79 | the normalisation applied to every row, keeping count and order; its properties are NormalizeStore, NormalizeIdempotent and NormalizeAppendStored |
| Expenses.Loaded | app.py:71-80 | what load_expenses returns: migrate, then normalise; its properties are MigrateNumbersRows, AppendedLoads and the ExpenseStore contracts |
| Expenses.StoredRow | app.py:90-91 | the row to_csv writes for an expense, numeric id and amount; NormalizeStore states it reads back as the same expense |
| Expenses.Store | app.py:96 | the table to_csv writes for a normalised frame (also app.py:108); NormalizeStore states it reads back as itself |
| Expenses.WithoutId | app.py:95 | `df[df["id"] != k]`; its contract is DeleteSpec, DeleteAbsent and DeleteDistinct |
| Expenses.Revised | app.py:103-107 | the table with row i's date, category, amount and description replaced; its contract is in ExpenseStore.Update and RevisedDistinct |
| Expenses.NormalizeAmount | app.py:77 | an amount that does not parse becomes 0.0; one that parses keeps its value |
| Expenses.NormalizeId | app.py:79 | an id that does not parse becomes 0; an integral value keeps its value |
| Expenses.NormalizeStore | app.py:75-79 | a normalised table written back and loaded again is the same table |
| Expenses.NormalizeIdempotent | app.py:75-79 | normalising already-normalised rows changes nothing |
| Expenses.NormalizeTextId | app.py:79 | in a column read as text, a well-formed integer id still loads as itself |
| Expenses.NormalizeAppendStored | app.py:91 | appending a written row appends its expense, unchanged, to what load returns |
| Expenses.Appended | app.py:89-91 | the file after an append has the id column and exactly one row more than the migrated file |
| Expenses.AppendedLoads | app.py:86-91 | after the append, load returns the earlier rows unchanged followed by the new one; a row carrying the next id keeps ids unique |
| Expenses.MaxId | app.py:84 | no id exceeds the result and some row has it |
| Expenses.NextIdOf | app.py:82-84 | the next id is greater than every id in the table, is 1 for an empty table, and is one more than some existing id otherwise |
| Expenses.AppendNextIdDistinct | app.py:82-91 | appending a row with the next id keeps ids unique |
| Expenses.FirstWithId | app.py:100-103 | None exactly when no row has id k; otherwise the position of a row with id k with no earlier such row |
| Expenses.DeleteSpec | app.py:95 | deleting k leaves an order-preserving subsequence with no row of id k, and every row with another id kept as often as before |
| Expenses.DeleteAbsent | app.py:95 | deleting an id no row has leaves the table unchanged |
| Expenses.DeletedMaxIdReused | app.py:84 | for a table with ids 1 and 2, deleting 2 makes the next id 2 again |
| Expenses.DeletedMaxIdNotFresh | app.py:84 | after the rows holding the largest id m (at least 1) are deleted, the next id is at most m, so it is no longer fresh against the deleted id |
| Expenses.DeleteAbsentRewritesFile | app.py:94-96 | deleting an id no row has leaves the loaded table as it was, yet rewrites the file, so an empty or text id cell on disk comes back as a number |
| Expenses.DeleteDistinct | app.py:93-96 | deleting keeps ids unique |
| Expenses.RevisedDistinct | app.py:103-107 | replacing a row's non-id fields keeps ids unique |
| Expenses.ExpenseStore.constructor | app.py:11 | the store starts with the file as found on disk |
| Expenses.ExpenseStore.EnsureFile | app.py:58-69 | the file becomes its migration |
| Expenses.ExpenseStore.Load | app.py:71-80 | the file is migrated and the result is the normalised migrated table |
| Expenses.ExpenseStore.NextId | app.py:82-84 | the file is migrated and the result is the next id of the loaded table |
| Expenses.ExpenseStore.Save | app.py:86-91 | a blank date, category or amount fails with the file untouched; an amount that does not parse fails after the migration only; otherwise exactly one row is appended, carrying the next id; unique ids stay unique |
| Expenses.ExpenseStore.Delete | app.py:93-96 | the file is rewritten as the loaded table without the rows of id k; that is what loads next; unique ids stay unique |
| Expenses.ExpenseStore.Update | app.py:98-108 | a missing id, or an amount that does not parse, fails after the migration only; otherwise only the first row with id k has its date, category, amount and description replaced, its id and position and every other row stay as they were, and unique ids stay unique |
| Numbers.DotIndex | app.py:90 | the position of the first '.', or the length when there is none |
| Numbers.ParseDecimal | app.py:90 | a blank text never parses as a number |
| Numbers.ParseUnsigned | app.py:90 | an unsigned numeral with at most one point; ParseFormatInt states it reads an integer's digits back |
| Numbers.FormatInt | app.py:96 | an integer as to_csv writes it, with a sign when negative; ParseFormatInt states it parses back |
| Numbers.FormatNat | app.py:91 | the decimal digits written for n read back as n |
| Numbers.ParseFormatInt | app.py:79 | an integer written as text parses back to the same number |
| Numbers.DigitsValueAppend | app.py:79 | the value of a digit string is the value of its prefix shifted by the suffix length, plus the suffix's value |
| Numbers.Trunc | app.py:79 | astype(int) truncates toward zero: within 1 of x, on the side of 0 |
| Text.StripStart | app.py:87 | only leading whitespace is removed, and the result does not start with whitespace |
| Text.StripEnd | app.py:87 | only trailing whitespace is removed, and the result does not end with whitespace |
| Text.IsBlank | app.py:87 | `s.strip() == ""`; by Strip's contract, blank exactly when every character is whitespace |
| Text.Lower | app.py:249 | `str.lower()` on ASCII, also applied at app.py:251-253; NanSearchFinding and SearchEmptyDescription use it |
| Text.Strip | app.py:87 | the result is empty exactly when the input is all whitespace; otherwise it neither starts nor ends with whitespace |
| Text.StripRemovesOuter | app.py:49 | the stripped string is the input with only its outer whitespace removed: a slice of it with nothing but whitespace on either side |
| Text.StripTrimmed | app.py:241 | a string without outer whitespace is left alone |
| Text.StripIdempotent | app.py:49 | stripping a stripped name changes nothing |
| Text.Contains | app.py:251 | `q in s` holds exactly when q occurs at some position of s |
| Text.FirstCharAbsent | app.py:251 | a query whose first character does not occur in s is not in s |
| Text.LexLe | app.py:244 | Python's `<=` on str (also app.py:246); it is a total order by LexLeReflexive, LexLeTotal, LexLeTransitive and LexLeAntisymmetric, and chronological on dates by Dates.IsoLexOrder |
| Text.LexLeReflexive | app.py:244 | a date equal to a bound passes it, so both bounds are inclusive |
| Text.LexLeTotal | app.py:244-246 | any two strings are comparable |
| Text.LexLeTransitive | app.py:244-246 | string order is transitive, so a from..to range is an interval |
| Text.LexLeAntisymmetric | app.py:244-246 | two strings that bound each other are equal |
| Text.LexLeFirstDifference | app.py:244-246 | the first differing position decides the order |
| Dates.DigitsLexOrder | app.py:240 | numerals of equal length compare lexically exactly as their values compare |
| Dates.DigitsOfValue | app.py:240 | the eight digits of a `YYYY-MM-DD` date spell its key YYYYMMDD |
| Dates.DropSeparators | app.py:240 | the two dashes, in the same places, do not change the comparison |
| Dates.IsoLexOrder | app.py:240-246 | for `YYYY-MM-DD` dates, string comparison is chronological comparison |
| Sequences.Select | app.py:238 | a boolean mask keeps an order-preserving subsequence whose rows all satisfy the mask |
| Sequences.SelectCounts | app.py:238 | every row satisfying the mask is kept as often as it occurs |
| Sequences.SelectEmptyIff | app.py:38-39 | the selection is empty exactly when no row satisfies the mask |
| Sequences.SelectSelect | app.py:237-246 | two masks in a row select by their conjunction |
| Sequences.SelectDistinctBy | app.py:95 | a selection from a table with unique keys has unique keys |
| Query.SearchHit | app.py:251-253 | the search test the model uses: the query occurs in the lowercased description, category or date; SearchEmptyDescription states it |
| Query.SearchHitAsWritten | app.py:251-253 | the search test as the code performs it on reloaded cells, an empty cell shown as "nan"; NanSearchFinding states it |
| Query.RunFilter | app.py:236-253 | the four stages in the code's order; its contract is RunFilterSpec and RunFilterSelects |
| Query.StageAfterSelect | app.py:237-253 | a stage applied after a selection selects by the conjunction, counting the stage's mask only when its control is set |
| Query.RunFilterSelects | app.py:236-253 | the four stages in a row are one selection by the conjunction of the active predicates |
| Query.RunFilterSpec | app.py:236-253 | the filter returns an order-preserving subsequence of exactly the rows passing every active predicate, each kept as often as it occurs |
| Query.NoCriteria | app.py:237-250 | "All" with a blank from, to and search shows every row |
| Query.RunFilterFirstStages | app.py:245-250 | a blank to and a blank search are no-ops |
| Query.FebruaryAfterJanuary | app.py:244 | 2024-02-01 is not on or before 2024-01-05 |
| Query.CategoryExample | app.py:237-238 | category Food keeps only the Food row |
| Query.DateFromExample | app.py:243-244 | from 2024-02-01 keeps only the February row |
| Query.CombinedExample | app.py:237-244 | Food together with from 2024-02-01 keeps nothing |
| Query.NanSearchFinding | app.py:251-253 | as written, searching "na" hits a row only because its empty description reads back as "nan" |
| Query.SearchEmptyDescription | app.py:251-253 | in the search the model uses, an empty description matches no query, so such a row is found only through its category or date |
| Summary.Total | app.py:146 | `df["amount"].sum()`, 0 for an empty table (also app.py:358); stated through TotalAppend, SaveAddsToTotal and GroupSumsAddUp |
| Summary.GroupSums | app.py:153 | `groupby("category")["amount"].sum()` (also app.py:363); its contract is GroupSumsSpec and GroupSumsAddUp |
| Summary.TotalAppend | app.py:146 | an appended row adds its amount to the total |
| Summary.SaveAddsToTotal | app.py:146 | after a save, the dashboard total grows by the new amount |
| Summary.CategoryTotalHead | app.py:153 | a category's sum counts the first row's amount exactly when the row is of that category |
| Summary.CategoryTotalAbsent | app.py:153 | a category no row has sums to 0 |
| Summary.CategoriesHead | app.py:153 | the categories of a table are the first row's category plus those of the rest |
| Summary.AddTo | app.py:153 | adding to a category's entry creates it when absent and touches no other key |
| Summary.GroupSumsStep | app.py:153 | adding the first row to the sums of the rest gives the sums of the whole table |
| Summary.GroupSumsSpec | app.py:153 | the group-by has one entry per category that occurs and no other, holding the sum of that category's amounts |
| Summary.SumTotalsCover | app.py:358 | over distinct categories covering every row, the category sums add up to the total |
| Summary.SumAtTotals | app.py:363 | reading the group-by entries gives the category sums |
| Summary.GroupSumsAddUp | app.py:358-363 | the bars of the summary chart add up to the total shown above it, which is 0 for an empty table |
| Summary.GroupSumsExample | app.py:363 | Food 10 and 5 with Rent 20 group to Food 15 and Rent 20 |
| Categories.DefaultCategories | app.py:14 | the six default categories, in the code's order; DefaultsDistinct states they are distinct |
| Categories.DefaultsDistinct | app.py:14 | the six default categories are distinct |
| Categories.AppendNewDistinct | app.py:50-51 | appending a name not present keeps names unique |
| Categories.CategoryStore.constructor | app.py:12 | the store starts with the file as found, present or not |
| Categories.CategoryStore.Load | app.py:42-45 | a missing file is seeded with the defaults; the result is the stored list |
| Categories.CategoryStore.SaveCategory | app.py:47-53 | the stripped name is added, at the end, exactly when it is non-blank and not already listed; otherwise nothing changes; unique names stay unique |
| Users.Registered | app.py:29 | `username in users['username'].values`: some row holds the username; used by SaveUser and SignupThenAuthenticate |
| Users.Authenticate | app.py:35-39 | log-in succeeds exactly when some row holds both the username and the hash of the password |
| Users.SignupThenAuthenticate | app.py:25-39 | after signing up a new user, logging in as that user succeeds exactly when the attempt hashes like the registered password |
| Users.AppendNewUserDistinct | app.py:29-32 | appending an unregistered username keeps usernames unique |
| Users.UserStore.constructor | app.py:10 | the store starts with the stored credentials and the hash function |
| Users.UserStore.SaveUser | app.py:25-33 | sign-up succeeds exactly when the username and the password are non-blank and the username is new; then exactly the username and the hash are appended and the user is registered; otherwise nothing changes; unique usernames stay unique |

## Left out

- The tkinter interface, the table widget, the dashboard's `sort_values(ascending=False)` ordering of the category labels, and the matplotlib chart are display only.
- File I/O is not modelled. Each CSV file is a value held by its store class, and "file missing" is a constructor of the file's datatype (`Absent`) or a flag (`CategoryStore.present`). The `header=not os.path.getsize(...)` choice is left out because it does not change the rows.
- A zero-byte expense file, on which `read_csv` raises, is not modelled; the model's files always have a header.
- Users.UserStore: a missing credentials file is the empty list, which is what `load_users` creates and reads back.
- Numbers.ParseDecimal: reads decimal numerals with an optional sign and surrounding whitespace. It does not read exponents, "inf", "nan", underscores or non-ASCII digits, which `float()` and `to_numeric` also accept. Amounts are exact reals: IEEE rounding is not modelled.
- Expenses.Cell: pandas dtype inference for the text columns is not modelled. A date, category or description is a string. An empty date or category cell is an empty string rather than NaN, and a numeric-looking username or category is not read back as a number.
- Text.Strip and Text.Lower: only ASCII whitespace and ASCII letters are handled; Unicode case folding and whitespace are not.
- Users.Authenticate: SHA-256 is a parameter `hash: string -> string`, not its definition.
- Expenses.ExpenseStore.Update: like the code, it does not reject a blank date, category or description; only `float(amount)` can fail.
- Expenses.ExpenseStore.Save: the date, category and description are stored as given, not stripped, as `save_expense` does; only the blank test strips them.
- Expenses.NextIdOf: ids are the largest id plus one, as in the code; no counter survives deletions, so an id can be handed out again after the row holding the largest id is deleted (`Expenses.DeletedMaxIdReused`). The model does not promise that ids are never reused.
- Expenses.ExpenseStore.Delete: deleting an id no row has leaves the loaded table unchanged, but not the file: the code rewrites the normalised table, so empty or malformed id and amount cells are written back as numbers (`Expenses.DeleteAbsentRewritesFile`). The model does not promise the file is untouched.
- Query.RunFilterSpec: an empty date cell is the empty string in the model, so such a row passes every `to` bound (the empty string is below every string). In the code the cell is NaN, and `df["date"] <= t` is false for NaN, so the row is dropped. Rows with an empty date can arise from `update_expense`, which does not reject a blank date, and from legacy files.
- Summary.GroupSumsAddUp: an empty category cell is the empty string in the model and gets an entry of its own, so the category sums always add up to the total. In the code the cell is NaN and `groupby("category")` leaves NaN keys out, so the chart's bars then add up to a different sum than the total shown (amounts may be negative). Such rows arise as for a blank date.
- Users.UserStore.SaveUser: the model reads a stored string back as the same string. `read_csv` also reads "NA", "N/A", "NULL", "null", "None", "nan", "NaN", "n/a", "<NA>", "#N/A" and a few other markers back as NaN. So in the code, a user named "NA" is not found by the duplicate test at app.py:29 and can sign up again. The model's promise that a registered username is refused does not hold for such names.
- Users.SignupThenAuthenticate: for a username that `read_csv` reads back as NaN (see SaveUser), the comparison at app.py:38 never matches, so that user can never log in. The lemma's promise does not hold for such names.
- Categories.CategoryStore.SaveCategory: for the same NA markers, the test at app.py:50 never finds the stored name, so each save appends it again. The promise that names stay unique does not hold for such names.
- Query.NanSearchFinding: beyond the empty description, a description stored as one of the NA markers (for instance "None") also reads back as NaN and is searched as "nan". The finding's as-written member models only the empty case.
- Concurrent use of the files, and the id race between two processes, are out of scope.

## Findings

| source | as written | input that shows it | evidently intended | confidence | as-written member | corrected member |
|---|---|---|---|---|---|---|
| app.py:251-253 | the search applies `str()` to cells reloaded from the CSV; an empty description is read back as NaN, and `str(NaN)` is "nan" | an expense saved with an empty description, and search text "na" | a row with no description matches a search only through its category or date | not executed | Query.NanSearchFinding | Query.SearchEmptyDescription |
