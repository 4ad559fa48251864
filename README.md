# Client reports CLI: a Dafny model of its core

The system is a command-line tool for managing clients and producing reports
about them.

- **The store.** A SQLite database holds four tables: `clients`, `reports`,
  `report_data` and `users`. `DatabaseManager` runs every query on them.
  `report_data` is covered only as described under "## Left out".
- **Users.** `AuthManager` keeps the users and their bcrypt password hashes.
- **Output.** `ReportGenerator` turns client rows into PDF tables, a
  spreadsheet and a CSV file, each under a time-stamped file name.
- **The shell.** An interactive shell (`MainMenu`) lists, searches, adds and
  edits clients for the user who is logged in.
- **Validators.** Two helpers check e-mail addresses and phone numbers.

This project models that core in Dafny. It proves what each operation
promises.

| module | file | models |
|---|---|---|
| `Database` | `database.dfy` | The three tables are sequences of rows in rowid order, with the AUTOINCREMENT counters. The schema's constraints are table invariants: increasing ids no greater than the counter, a UNIQUE email, a UNIQUE username, and NOT NULL name and email. Every query is a function over the rows. The `DatabaseManager` class holds the tables and updates them in place. |
| `Auth` | `auth.dfy` | `AuthManager` works on the same store's `users` table. bcrypt is a pair of functions, `hash(password, salt)` and `verify(password, hash)`. The only thing assumed of them is that a password verifies against every hash made from it. |
| `Reports` | `reports.dfy` | The tables handed to the PDF builder and the cells handed to the spreadsheet and CSV writers. Also the spreadsheet column-width loop, the output file names and `os.path.join`. |
| `Cli` | `cli.dfy` | The shell's data rules: the search filter, the "N/A" cells, empty answers stored as NULL, and the session user. |
| `Validators` | `validators.dfy` | `validate_email` and `validate_phone`. Each is a hand-written recogniser, proved equal to the regular expression it implements. That includes the way Python's `$` accepts a single trailing newline. |
| `GroupBy` | `groupby.dfy` | `GROUP BY x` with `COUNT(*)`, then `ORDER BY count DESC` and `LIMIT n`. |
| `Ordering` | `ordering.dfy` | `ORDER BY`. A result is acceptable when it is a permutation of the rows and every row may precede every later one. Rows that compare equal may come in any order. |
| `Text` | `text.dfy` | ASCII lower-casing, Python's `in` on strings, `str(n)`, the `x or "N/A"` / `x or ''` / `x or None` idioms, and SQLite's code-point order on TEXT. |
| `Wrappers` | `wrappers.dfy` | `Option` and `Result`. |

Things the program takes from the outside world are parameters:

- the clock (`now`, the file-name timestamp `ts`);
- bcrypt's salt;
- the user's answers at the prompts.

A NULL column is `None`.

An `sqlite3.IntegrityError` is an `Err(DbError)` result:

- `UniqueViolation("email")`;
- `NotNullViolation("name")` or `NotNullViolation("email")`.

## Model

| member | source | states |
|---|---|---|
| Database.IndexWhere | src/database.py:106-107 | the single-row `WHERE` lookup: the position of a row satisfying the condition, or -1 exactly when no row does |
| Database.GetClient | src/database.py:102-111 | None exactly when no row has the id; otherwise a row of the table with that id |
| Database.GetClientAt | src/database.py:102-111 | in a table with distinct ids, looking up a row's id returns that very row |
| Database.NewestFirstIsPreorder | src/database.py:117 | `created_at DESC` on TEXT timestamps is a total preorder, so ORDER BY on it is well defined up to ties |
| Database.GetAllClients | src/database.py:113-120 | every row exactly once (same multiset), newest `created_at` first |
| Database.Joined | src/database.py:183-185 | the inner join: only reports whose client row exists, each tagged with that client's name; every such report appears |
| Database.JoinedCounts | src/database.py:168-170 | the join lists a report whose client row exists exactly as often as it is stored (once, in a table), and any other report not at all |
| Database.GetAllReports | src/database.py:178-190 | a reordering of the join (so every report with an existing client, as often as it is stored, with that client's name), newest first; reports of missing clients are absent |
| Database.OfClient | src/database.py:171 | `WHERE r.client_id = ?` keeps exactly the reports of that client, each as often as it is stored |
| Database.GetReportsByClient | src/database.py:163-176 | a reordering of the join of the client's reports (so each of them once while the client row exists), tagged with its name, newest first; empty once the client row is gone |
| Database.Patched | src/database.py:122-139 | the updated row: each named column takes its new value, every other column keeps its old one, id and created_at unchanged, updated_at is the update time |
| Database.UpdateRows | src/database.py:135-139 | `UPDATE clients SET ... WHERE id = ?`: the row with the id becomes Patched, every other row stays; its properties are in UpdateKeepsTable |
| Database.UpdateOutcome | src/database.py:122-141 | false exactly for an empty update or an unknown id; true exactly when no NULL goes into name/email and the new email belongs to no other row; otherwise the NOT NULL or UNIQUE violation |
| Database.UpdateKeepsTable | src/database.py:122-141 | a successful update keeps the table invariants, the id now finds the patched row, every other id finds what it found before |
| Database.Deleted | src/database.py:147 | the rows left are exactly the rows whose id differs |
| Database.DeletedInOrder | src/database.py:147 | deleting keeps the rowid order |
| Database.DeleteKeepsTable | src/database.py:143-149 | after a delete the id finds nothing (a second delete returns false), every other id finds the same row, and the invariants hold |
| Database.DeleteHidesReports | src/database.py:163-190 | after its client is deleted, no report of that client appears in either report listing |
| Database.InsertKeepsTable | src/database.py:44-57 | appending under the next id with an unused email keeps the invariants; the new id finds the new row and every other lookup is unchanged |
| Database.NonNull | src/database.py:205 | `WHERE col IS NOT NULL`: each value as often as in the column, and the NULLs are what is missing |
| Database.GetClientStats | src/database.py:192-226 | total = row count; per-country counts are exact, cover every non-NULL country, most first, and sum to the rows with a country; at most 10 cities, exact counts, most first, all cities when fewer than 10, and no omitted city has more clients than a kept one |
| Database.GetReportStats | src/database.py:228-257 | total = row count; per-status and per-type counts are exact, cover every value, and each sums to the total |
| Database.DatabaseManager.constructor | src/database.py:27-87 | a new database has empty tables and counters at 0 |
| Database.DatabaseManager.CreateClient | src/database.py:89-100 | a used email raises the UNIQUE violation and changes nothing; otherwise exactly one row is appended under the next id (returned, larger than every earlier id) with both timestamps set |
| Database.DatabaseManager.UpdateClient | src/database.py:122-141 | answers UpdateOutcome; the table changes only on true, then exactly as UpdateRows says; the invariants are kept |
| Database.DatabaseManager.DeleteClient | src/database.py:143-149 | true exactly when a row had the id; the table becomes Deleted; reports are left untouched |
| Database.DatabaseManager.CreateReport | src/database.py:151-161 | always appends one report under the next id, status 'pending', type 'general' unless given, whether or not the client exists |
| GroupBy.Tally | src/database.py:238-251 | GROUP BY with COUNT(*): one group per distinct value, with its exact count, covering every value, summing to the row count |
| GroupBy.Ranked | src/database.py:202-209 | GROUP BY + ORDER BY count DESC: exact counts, every value, most first, summing to the row count |
| GroupBy.PrefixOmitsFewest | src/database.py:212-220 | a prefix of a count-sorted grouping leaves out no value with more rows than a kept one |
| GroupBy.TopRanked | src/database.py:212-220 | LIMIT n on the ranked groups: at most n groups, exact counts, most first, all values when fewer than n, and nothing left out outranks what was kept |
| GroupBy.SortKeepsGroups | src/database.py:207 | sorting groups by count keeps their keys distinct and their counts' sum |
| Ordering.Sort | src/database.py:117 | an ORDER BY result: same multiset of rows, and ordered |
| Text.LexLeTotal | src/database.py:117 | any two TEXT values compare one way or the other |
| Text.LexLeTransitive | src/database.py:117 | the TEXT order is transitive |
| Text.ToLower | src/cli_menus.py:359-361 | `.lower()`: same length, each character lowered |
| Text.ToLowerIdempotent | src/cli_menus.py:359-361 | lowering twice is lowering once |
| Text.ContainsAt | src/cli_menus.py:359-361 | `t in s` holds exactly when `t` occurs in `s` at some offset |
| Text.ContainsInEmpty | src/cli_menus.py:360-361 | a non-empty term does not occur in `''` |
| Text.NatToString | src/reports.py:53 | `str(n)`: at least one decimal digit and no leading zero |
| Text.ParseNatToString | src/reports.py:171 | the rendered number reads back as the number |
| Text.NatToStringInjective | src/reports.py:32 | different numbers render differently |
| Text.OrNA | src/cli_menus.py:231-234 | `v or "N/A"`: never empty; NULL and `''` show as "N/A", anything else as itself |
| Text.OrEmpty | src/cli_menus.py:360-361 | `v or ''`: NULL reads as `''`, a value as itself |
| Text.NoneIfEmpty | src/cli_menus.py:258-259 | `answer or None`: NULL exactly for an empty answer, never `''` |
| Text.OrEmptyNoneIfEmpty | src/cli_menus.py:288-303 | an answer stored with `or None` and shown again with `or ''` is the answer |
| Text.NoneIfEmptyOrEmpty | src/cli_menus.py:288-303 | a stored value other than `''`, shown with `or ''` and stored again with `or None`, is unchanged |
| Validators.FirstIndex | src/utils.py:55 | the first '@' in the text (or none) |
| Validators.LastIndex | src/utils.py:55 | the last '.' in the domain (or none) |
| Validators.ValidateEmail | src/utils.py:52-56 | validate_email: the recogniser on the text, or on the text less one final newline (what `$` allows); characterised by ValidateEmailIff |
| Validators.EmailShapeIsPattern | src/utils.py:55 | the recogniser accepts exactly the texts the anchored regular expression matches |
| Validators.ValidateEmailIff | src/utils.py:52-56 | validate_email is true exactly for a match of the pattern, or a match followed by one newline |
| Validators.ExactlyOneAt | src/utils.py:52-56 | an accepted address holds exactly one '@' |
| Validators.EmailTrailingNewlineAccepted | src/utils.py:52-56 | as written, "a@b.co" followed by a newline is accepted |
| Validators.EmailShapeRejectsNewline | src/utils.py:55 | a full match never contains a newline |
| Validators.RejectsEmptyLocal | src/utils.py:52-56 | an address starting with '@' is rejected |
| Validators.RejectsDomainWithoutDot | src/utils.py:52-56 | `local@domain` with no '.' in the domain is rejected |
| Validators.RejectsBadTopLabel | src/utils.py:52-56 | a final label that is not two or more ASCII letters is rejected |
| Validators.Without | src/utils.py:63 | `s.replace(c, '')` leaves no `c` and is no longer than `s` |
| Validators.WithoutKeeps | src/utils.py:63 | every other character is kept |
| Validators.WithoutConcat | src/utils.py:63 | removal works piece by piece |
| Validators.Stripped | src/utils.py:63 | the stripped number holds no ' ' and no '-' |
| Validators.ValidatePhone | src/utils.py:58-63 | validate_phone: the phone recogniser on the text with ' ' and '-' removed, or on that less one final newline; characterised by PhoneShapeIsPattern and SeparatorIgnored |
| Validators.ValidatePhoneIff | src/utils.py:58-63 | validate_phone holds exactly when the pattern matches the stripped text in full, or matches it less one final newline |
| Validators.PhoneShapeIsPattern | src/utils.py:62 | the recogniser accepts exactly what `[\+]?[1-9][\d]{0,15}` matches in full |
| Validators.SeparatorIgnored | src/utils.py:58-63 | inserting a ' ' or '-' anywhere never changes the verdict |
| Validators.AcceptedDigitCount | src/utils.py:58-63 | an accepted number has 1 to 16 digits once separators are removed |
| Validators.RejectsEmptyPlusAndLeadingZero | src/utils.py:58-63 | the empty text, a lone '+' and a leading '0' are rejected |
| Validators.PhoneTrailingNewlineAccepted | src/utils.py:58-63 | as written, "1" followed by a newline is accepted |
| Validators.PhoneShapeRejectsNewline | src/utils.py:62 | a full match of the stripped text never contains a newline |
| Auth.UserIndexAt | src/auth.py:45-50 | with UNIQUE usernames, looking up a row's username finds that row |
| Auth.Authenticate | src/auth.py:41-58 | None for an unknown username; a summary only of a row with that username whose hash verifies the password, never the hash |
| Auth.AuthenticateIff | src/auth.py:41-58 | a summary comes back exactly when the user exists and the password verifies |
| Auth.UserExists | src/auth.py:60-65 | true exactly when the users table has a row |
| Auth.GetUserByUsername | src/auth.py:67-85 | None exactly for an unknown username; otherwise that row's id, name, admin flag and creation time, never the hash |
| Auth.InsertKeepsUsers | src/auth.py:32-35 | appending under a new username and the next id keeps the users invariants |
| Auth.CreatedUserAuthenticates | src/auth.py:26-39 | a user created with a password then authenticates with it |
| Auth.ChangedPasswordAuthenticates | src/auth.py:87-103 | after a change the new password authenticates the same user, and the invariants hold |
| Auth.AuthManager.constructor | src/auth.py:14-24 | the manager works on the given store with a sound hash/verify pair |
| Auth.AuthManager.CreateUser | src/auth.py:26-39 | false with nothing changed when the username is taken; otherwise one row under the next id holding the hash, and the user authenticates with that password |
| Auth.AuthManager.ChangePassword | src/auth.py:87-103 | true exactly when the id exists and the old password verifies; only then, only that row's hash changes, and the new password authenticates |
| Reports.ClientInfoTable | src/reports.py:51-62 | ten rows: the header, then each label with the client's value, NULL or `''` shown as "N/A" |
| Reports.ReportDataTable | src/reports.py:84-86 | the header, then one row per entry in order, a missing value shown as "N/A" |
| Reports.ClientReportTables | src/reports.py:51-86 | the client table always; the report-data table exactly when report data is given and non-empty |
| Reports.ListRow | src/reports.py:139-146 | the six cells of a client line; no cell but the name can be empty |
| Reports.ClientsListTable | src/reports.py:137-146 | the header, one row per client in order, and a footer whose number reads back as the row count |
| Reports.ExportRow | src/reports.py:187-188 | cell i is the client's value under column i of the reindex; NULLs stay empty cells; updated_at is dropped |
| Reports.ExportRelabelOneToOne | src/reports.py:187-191 | nine distinct columns renamed to nine distinct headers, updated_at not among them |
| Reports.SheetColumn | src/reports.py:199-202 | a sheet column: the header first, then one cell per client |
| Reports.MaxLen | src/reports.py:200-207 | the longest text in a column, and one text is that long |
| Reports.ColumnWidths | src/reports.py:199-209 | each column's width is min(longest + 2, 50), so between 2 and 50 |
| Reports.ExcelColumnWidths | src/reports.py:194-209 | nine widths between 2 and 50, each wide enough for its header up to the cap |
| Reports.CountRows | src/reports.py:264-266 | one row per group in group order, labelled prefix + key, whose count cell reads back as the count |
| Reports.ClientStatsTable | src/reports.py:259-266 | header, total, then one "Clientes en" row per country |
| Reports.ReportStatsTable | src/reports.py:287-298 | header, total, one row per status, then one per type |
| Reports.ClientPdfName | src/reports.py:31-32 | `cliente_<id>_<timestamp>.pdf`; its properties are in ClientPdfNameInjective and NameFamiliesDistinct |
| Reports.ListName | src/reports.py:117-118 | `lista_clientes_<timestamp>.<ext>`, as in src/reports.py:179-180 and 215-216 too; see ListNameInjective |
| Reports.StatsName | src/reports.py:236-237 | `estadisticas_<timestamp>.pdf`; see NameFamiliesDistinct |
| Reports.JoinPath | src/reports.py:33 | POSIX `os.path.join(output_dir, filename)` (also lines 119, 181, 217, 238): an absolute name replaces the directory, otherwise one '/' separates them; see JoinPathKeepsName |
| Reports.ClientPdfNameInjective | src/reports.py:31-32 | different client ids or timestamps give different client report names |
| Reports.ListNameInjective | src/reports.py:117-118 | with fixed-width timestamps, different timestamps or extensions give different list names |
| Reports.NameFamiliesDistinct | src/reports.py:32 | the client report, client list and statistics names never collide |
| Reports.JoinPathKeepsName | src/reports.py:33 | `os.path.join` keeps a relative name whole after the directory, so different names give different paths |
| Cli.Matches | src/cli_menus.py:359-361 | the search condition: the lowered term occurs in the lowered name, or in the lowered email or company read with `or ''` |
| Cli.Search | src/cli_menus.py:357-362 | keeps exactly the clients whose name, email or company contains the term, ignoring case |
| Cli.SearchIsSubsequence | src/cli_menus.py:357-362 | the result keeps the listing's order |
| Cli.SearchSubMultiset | src/cli_menus.py:357-362 | no client is listed more often than in the input, so on a table each match appears exactly once |
| Cli.SearchIdempotent | src/cli_menus.py:357-362 | searching the result again changes nothing |
| Cli.EmptyTermKeepsAll | src/cli_menus.py:357-362 | an empty term keeps every client |
| Cli.NoMatchThroughNull | src/cli_menus.py:360-361 | a NULL email or company never matches a non-empty term |
| Cli.SearchRow | src/cli_menus.py:377-382 | id, name, then email and company with "N/A" for NULL or empty; the last two are never empty |
| Cli.ListClients | src/cli_menus.py:208-235 | the "no clients" case exactly for an empty table; otherwise one list row per client, newest first |
| Cli.SearchClients | src/cli_menus.py:345-382 | the "no results" case exactly when nothing matches; otherwise one search row per match, newest first |
| Cli.EditChanges | src/cli_menus.py:295-304 | all seven columns: name and email exactly as typed, each optional column NULL for an empty answer and otherwise the typed text (it reads back as the answer), never `''` |
| Cli.EditedRowHasNoEmptyOptionals | src/cli_menus.py:295-304 | a row rewritten by the edit has no `''` in its optional columns, whatever it held before |
| Cli.MainMenu.constructor | src/cli_menus.py:21-25 | no one is logged in at the start |
| Cli.MainMenu.Login | src/cli_menus.py:84-94 | the session user is set exactly when authentication succeeds, to what it returned; a failed login changes nothing |
| Cli.MainMenu.Logout | src/cli_menus.py:444-446 | no one is logged in afterwards |
| Cli.MainMenu.AddClient | src/cli_menus.py:240-263 | create_client with empty answers as NULL: an error exactly when the email is in use, and then nothing changes; otherwise the next id is returned, the counter moves to it, and exactly that row is appended, with no `''` in its optional columns |
| Cli.MainMenu.EditClient | src/cli_menus.py:267-311 | "client not found" with nothing changed for an unknown id; otherwise the update's outcome; on success the table is UpdateRows of the old one with all seven answers (other rows unchanged) and the row holds no `''` in its optional columns; on any other outcome nothing changes |

## Left out

- SQLite itself is not modelled: connections, files, `commit`, and the directory creation in `ensure_data_directory`. The tables are values held by `DatabaseManager`.
- `report_data` rows are modelled only as the `(field_name, field_value)` pairs passed to the report PDF. No DatabaseManager query reads or writes that table.
- Timestamps are parameters:
  - `CURRENT_TIMESTAMP` for `created_at`;
  - `datetime.now().isoformat()` for `updated_at` in update_client, a different text format;
  - `strftime("%Y%m%d_%H%M%S")` for file names.
- `ListNameInjective` assumes equal timestamp lengths, which `%Y%m%d_%H%M%S` gives for four-digit years.
- Database.UpdateOutcome: column names come from the fixed `ClientField` set (the seven editable columns). Three cases of `**kwargs` are therefore not modelled:
  - an unknown key, which is an SQL error in the source;
  - the real columns `id` and `created_at`, which the source would let a caller rewrite;
  - a caller's own `updated_at`, which src/database.py:128 overwrites with the current time.
  No caller in the shell passes any of these.
- GroupBy.Tally: `GROUP BY` without `ORDER BY` returns groups in an order SQLite leaves unspecified. The model uses first-appearance order, and no contract depends on it.
- bcrypt is abstract. Its salt is a parameter. The one assumed property is that `verify(p, hash(p, s))` holds. Hash collisions are not modelled.
- Text is ASCII:
  - `.lower()` lowers only A-Z;
  - `\d` in validate_phone means 0-9 (Python's `\d` also matches other Unicode digits);
  - character lengths in the width loop are counted in code points.
- Validators.EmailShapeIsPattern: the regular expression's meaning is given directly as "some split of the text fits the pattern" (EmailPattern, PhonePattern). Python's backtracking matcher itself is not modelled.
- Reports.ColumnWidths: an empty spreadsheet cell counts as `''`, which is how pandas writes NaN. openpyxl's `str(None)` on reading it back is not modelled. The widths are returned, not written into a worksheet.
- Rendering is not modelled:
  - the PDF layout (styles, fonts, spacing, the "Generado el" footer);
  - the spreadsheet and CSV file formats and encodings;
  - the rich console output and the prompts.
- The shell's other menus are not modelled: registration, dashboard, statistics, export, settings, help, about and system info. Nor is `delete_client`'s confirmation dialog, or utils.py's formatting and console helpers (`format_currency`, `format_date`, `show_*`, `get_file_size`).
- Validators: neither validator is called by the shell. They are modelled on their own.

## Findings

| source | as written | input that shows it | evidently intended | confidence | as-written member | corrected member |
|---|---|---|---|---|---|---|
| src/utils.py:55-56 | `re.match` with a pattern ending in `$`. `$` also matches just before a final newline. | `"a@b.co\n"` is accepted. | A full match (`re.fullmatch` or `\Z`), which accepts no newline. | high, not executed | Validators.EmailTrailingNewlineAccepted | Validators.EmailShapeRejectsNewline |
| src/utils.py:62-63 | The same `$` in the phone pattern. | `"1\n"` is accepted. | A full match of the stripped text. | high, not executed | Validators.PhoneTrailingNewlineAccepted | Validators.PhoneShapeRejectsNewline |
