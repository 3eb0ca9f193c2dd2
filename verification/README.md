# goose migration core, modelled in Dafny

A Dafny model of the migration unit of goose (`migration.go`): how a
migration file name yields its version number (`NumericComponent`), and how
one migration is run in one direction (`Migration.run`, reached through
`Up` and `Down`) against a database, with or without a transaction, keeping
the goose version table up to date.

Modules, leaves first:

- `Results` (`results.dfy`): `Option` and `Result`.
- `Paths` (`paths.dfy`): `filepath.Base`, `filepath.Ext` and `strings.Index`
  for a one-character needle, with '/' as the separator.
- `StrConv` (`strconv.dfy`): `strconv.ParseInt(s, 10, 64)` as the Go library
  computes it. That is an optional sign, then ParseUint's digit loop with its
  per-digit cutoff and overflow checks, then the int64 range check. The
  module also holds a reference decimal reading (`ValueFrom`) and
  `Decimal`/`FormatInt` as the inverse.
- `Versions` (`versions.dfy`): `NumericComponent` and its characterisation.
- `Database` (`database.dfy`): an abstract database. It holds the version
  table, as a sequence of `MigrationRecord` rows without the timestamp, and
  a log of opaque payload effects. It also models the statements the engine
  issues and a transaction as a buffer of pending statements. Commit applies
  the buffer at once; rollback discards it.
- `Migrations` (`migration.dfy`): `Migration`, `Run`, `Up` and `Down`.
  Foreign behaviour is passed in as an `Answers` value: the SQL-script
  runner's result, `db.Begin`, the version statement and `tx.Commit`.
  A registered Go function is described by the effects it performs and the
  error it returns. `Fatal` stands for `log.Fatal*` ending the process.

Behaviour of the code that a reader might not expect, and that the model keeps:

- `add_users.sql` holds a '_' after `add`, so NumericComponent fails in
  `ParseInt` with `Parse(ErrSyntax)`, not with `NoSeparator`
  (migration.go:147-152).
- An unregistered Go migration (`log.Fatalf`, migration.go:77), a failed
  `db.Begin` (`log.Fatal`, migration.go:103) and a failing Go function
  (`log.Fatalf`, migration.go:87 and 113) end the process; the model returns
  `Fatal`.
- NumericComponent checks only the extension (".go" or ".sql"); it does not
  look at whether a ".go" migration is registered.
- `run` reports a run with no statements or a nil function exactly like any
  other successful run.
- A well-formed version text below the int64 range is a range error from
  `ParseInt`, not a "must be greater than zero" error.

## Model

| member | source | states |
|---|---|---|
| Versions.NumericComponent | migration.go:139-158 | A successful result is positive. The error is "unrecognized file type" exactly when the base name's extension is neither ".go" nor ".sql". The error is "no separator" exactly when the extension is recognized and the base name holds no '_'. |
| Versions.VersionOfBase | migration.go:143-157 | On a base name: positive on success; "unrecognized file type" exactly when the extension is not ".go"/".sql"; "no separator" exactly when it is and no '_' occurs; otherwise the result is that of parsing the text before the first '_'. |
| Versions.VersionText | migration.go:152 | The text before the first '_' (`base[:idx]`): a prefix of the base name with no '_', followed in the name by a '_'. |
| Versions.ParseVersion | migration.go:152-157 | The version text is accepted exactly when it is a sign and digits whose value lies in 1..MaxInt64, and the result is that value. Well-formed text in MinInt64..0 is NotPositive. Well-formed text outside the int64 range is a range error. Any other text is a parse error. |
| Versions.NumericComponentSpec | migration.go:139-158 | NumericComponent succeeds exactly on base names with a recognized extension, a '_' and a positive int64 before the first '_'. Its value is the decimal value of that text. It returns NotPositive or a parse error in the other cases after the separator. |
| Versions.NumericComponentOfBase | migration.go:141 | NumericComponent of a path equals NumericComponent of its base name. |
| Versions.NumericComponentIgnoresDir | migration.go:141 | Prefixing any directory to a plain file name never changes the result. |
| Versions.NumericComponentRoundTrip | migration.go:136-158 | A name `<dir>/<n in decimal>_<description>.go` or `.sql` reads back as `n`, for every positive int64 `n` and every separator-free description. |
| Paths.Base | migration.go:141 | The base name is never empty. It holds no separator unless it is "/" itself. The empty path gives ".". |
| Paths.BaseOfJoin | migration.go:141 | The base name of `dir/name` is `name`, for any directory and any non-empty separator-free name. |
| Paths.BaseIdempotent | migration.go:141 | Taking the base name twice gives the same result as taking it once. |
| Paths.Ext | migration.go:143 | The extension is empty or starts with its only '.'. It holds no separator and is a suffix of the path. |
| Paths.ExtEmpty | migration.go:143 | The extension is empty exactly when the last path element holds no '.'. |
| Paths.ExtOfSuffix | migration.go:143 | A path ending in '.' plus dot-free, separator-free text has exactly that text as its extension. |
| Paths.IndexOf | migration.go:147 | The result is -1 exactly when the character is absent. Otherwise it is the position of the character's first occurrence. |
| StrConv.ParseInt | migration.go:152 | A successful parse means the text is a sign and digits, and the result is their signed decimal value. |
| StrConv.ParseUint | migration.go:152 | A successful unsigned parse means the text is a non-empty digit string, and the result is its decimal value, at most MaxUint64. |
| StrConv.Accumulate | migration.go:152 | A successful run of the digit loop from an accumulator means the rest is all digits, and the result is the accumulator followed by those digits, at most MaxUint64. |
| StrConv.ParseIntSpec | migration.go:152 | ParseInt succeeds exactly on a sign and digits whose value lies in the int64 range. Well-formed text out of range is a range error. |
| StrConv.ParseUintSpec | migration.go:152 | The unsigned loop succeeds exactly on non-empty digit strings whose value fits in 64 bits. A larger value is a range error. |
| StrConv.AccumulateDigits | migration.go:152 | On digits, the loop with its cutoff and overflow checks gives the reference decimal value when it fits in 64 bits, and a range error otherwise. |
| StrConv.FormatIntRoundTrip | migration.go:152 | ParseInt reads back the decimal text of every int64. |
| StrConv.DecimalValue | migration.go:152 | The decimal digits of `n` read back as `n`. |
| StrConv.ParseIntLeadingZero | migration.go:152 | A leading zero before unsigned text never changes ParseInt's result, so "007" reads as 7. |
| Database.WithoutVersion | migration.go:96 | After the delete-version statement a row is present exactly when it was present before and belongs to another version; the table does not grow. |
| Database.WithoutVersionCounts | migration.go:96 | The delete-version statement keeps every row of another version with as many copies as before and drops every row of the deleted version. |
| Database.WithoutVersionConcat | migration.go:96 | Deleting a version from a concatenated table is deleting it from each part, so the surviving rows keep their order. |
| Database.ApplyOp | migration.go:92-98 | A payload effect is appended to the log and leaves the table alone. Insert-version appends the row. Delete-version removes the version from the applied set. Neither version statement touches the log. |
| Migrations.VersionOp | migration.go:91-99 | The version statement never touches the payload log; applied to any database, up adds the migration's version to the applied set and down removes it, and every other version keeps its state. |
| Database.Begin | migration.go:101 | A new transaction holds nothing: committing it leaves any database unchanged. |
| Database.ExecInTx | migration.go:111-123 | Statements executed in a transaction reach the database only at commit, after the statements already pending, in order. |
| Database.Commit | migration.go:129 | Committing an empty transaction changes nothing; committing payload statements appends their effects to the log and leaves the version table alone. |
| Migrations.Run | migration.go:68-134 | Any other extension succeeds and leaves the database unchanged. An unregistered ".go" migration is Fatal with the database unchanged. A ".sql" failure is wrapped. A successful ".go" run leaves exactly the database its payload statements and version statement produce. |
| Migrations.RunDirect | migration.go:80-99 | Without a transaction, a failing function is Fatal. Its effects stay durable and the version table is not touched. A failing version statement returns that error as is, again after the effects. Success means neither failed, and then the result is the full set of statements applied. |
| Migrations.RunInTx | migration.go:100-130 | A Begin failure or a function failure is Fatal with the database unchanged. A version-statement failure is rolled back and returned. Success happens exactly when the commit succeeds. A failed commit returns its error. The database always ends either unchanged or fully migrated. |
| Migrations.RunSuccessEffects | migration.go:80-129 | A successful Go run appends the selected function's effects to the log. Up appends an applied row for the version. Down deletes the version's rows and removes only that version from the applied set. |
| Migrations.Up | migration.go:50-57 | A successful Go up-migration appends exactly one applied row for its version to the table, leaving every existing row as it was, so its version is applied; the up function's effects are logged. |
| Migrations.Down | migration.go:59-66 | A successful Go down-migration leaves the table without any row of its version and every other row in place, so only that version leaves the applied set; the down function's effects are logged. |
| Migrations.UpThenDown | migration.go:50-66 | Up then Down removes the version's rows and logs the up effects followed by the down effects. A table that had no row of that version is restored exactly. |
| Migrations.TxAndDirectAgree | migration.go:80-129 | When nothing fails, the transactional and the direct paths leave the same database, which is the fully migrated one. |

`Migrations.SelectFn` (migration.go:81-84, 106-109), `Migrations.FnEffects`
and `Migrations.FnFails` (the nil-function skip and the error test at
migration.go:85-90, 110-116) and `Database.Rollback` (migration.go:112, 119,
124) are plain definitions of those lines; the `RunDirect`, `RunInTx` and
`RunSuccessEffects` rows above are stated in their terms.

## Left out

- `runSQLMigration` and the SQL statement parser are not part of this model. Their source is not available. The ".sql" path takes the runner's answer (an error or none, and the resulting database) as an input. Only the wrapping of its error is modelled.
- The dialect's `insertVersionSQL`/`deleteVersionSQL` text is not modelled. These are opaque insert-row and delete-rows-of-version statements.
- `QueryExecer`, `sql.DB` and `sql.Tx` are foreign I/O. They are replaced by the abstract database, the transaction buffer and the `Answers` input.
- Log output (`log.Println`, the text of `log.Fatalf`, the "OK"/"FAIL" lines) is not modelled. Only the termination is modelled, as `Fatal`.
- The `MigrationRecord` timestamp `TStamp` is not modelled. `String()` is not modelled. `Next`/`Previous` are kept as fields, but nothing here computes them.
- Paths.Base: only '/' is a separator. Windows volume names and '\\' are not modelled.
- Versions.NumericComponent: on a ParseInt error the source also returns ParseInt's value beside the error (0 on a syntax error, the saturated int64 bound on a range error). As a modelling choice the result is only the error; no caller of NumericComponent is part of this model.
- StrConv.ParseIntSpec: it says only that malformed text is an error. It does not say whether that error is a syntax or a range error, because the order of the loop's checks decides this. `StrConv.Accumulate` models that order.
- Migrations.RunInTx: the error of `tx.Rollback()` is ignored, as in the source. A process ended by `Fatal` after a rollback is taken to leave the database as before the run.
- Migrations.Run: a Go function is modelled by its effects and its error. What it does with the connection beyond that is not modelled. Context cancellation is not modelled.
- Strings: Go's byte strings are modelled as sequences of Unicode characters. A name that is not valid UTF-8 cannot be represented; byte offsets become character offsets, which cut out the same text because the separators '/', '.' and '_' are single bytes.
- Migrations.Run: `log` is the package's own logger, not the standard library (it is not imported at migration.go:3-12). `Fatal` assumes that logger ends the process. With a logger that returns, the `return err` at lines 88 and 114 and the fall-through after line 77 would be reachable; the model does not cover that.
- The example Go migration (`examples/go-migrations/00002_rename_root.go`) registers two UPDATE statements. It holds no logic to model.
