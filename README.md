# aert-php database helpers and `timeslot`, modelled in Dafny

This project models the part of the aert-php library that turns PHP values
into SQL text, together with the duration formatter `DateFormat::timeslot`.

- `Db_SqlHelper` supplies four pieces:
  - the condition compiler `parseCond`;
  - the template binder `bind`;
  - the identifier quoting of `qtable`, `qfield` and `qfields`;
  - the placeholder builders `placeholder` and `placeholderPair`.
- `Db_DataSource` supplies three text-producing pieces:
  - the literal renderer `qstr`;
  - `sql_limit`;
  - the wrapper of `count`.
- `Db_Query` builds the statements of `selectRow`, `select`, `count`, `insert`, `update`, `del` and `incrField`.
- `Db_Actor::read` has a reading plan for many rows: an optional total count, then the rows with an optional LIMIT.

Every statement is a Dafny function of the arguments it is built from. Where
the PHP code loops, there is also a Dafny `method` with the same loop, proved
equal to the function. That holds for:
- the `foreach` of `parseCond` and the FIELD_GROUP loops;
- the `foreach` of `bind`;
- the loop of `qfields`;
- the loops of `placeholder` and `placeholderPair`.

The database driver comes in as one parameter, `quote: string -> string`. It stands for `PDO::quote`, and nothing is assumed about it.

Modules, one per file:
- `PhpStrings` (`php_strings.dfy`) models the PHP builtins the code relies on:
  - `trim`, `strtoupper` and `strtolower`;
  - `explode` and `implode`;
  - `str_replace`;
  - `substr` with a negative length;
  - the decimal text of an int.
- `PhpValues` (`php_values.dfy`) models scalars, array keys, `empty()`, truthiness and string interpolation.
- `DbDataSource` (`db_data_source.dfy`) models `qstr`, `sql_limit` and `count`.
- `DbCondition` (`db_condition.dfy`) holds `parseCond`:
  - its meaning, as the function `CompileCond`;
  - the loop, as the method `ParseCond`.
- `DbConditionProperties` (`db_condition_properties.dfy`) holds what is proved about the condition compiler.
- `DbFieldGroup` (`db_field_group.dfy`) proves what a FIELD_GROUP means: its synthetic keys, once replaced, leave the alternates compiled under the field itself.
- `DbFieldGroupCases` (`db_field_group_cases.dfy`) works two FIELD_GROUP inputs through: the group of the source comment, and a literal that holds a synthetic key.
- `DbIdentifiers` (`db_identifiers.dfy`) models `qtable`, `qfield`, `qfields`, `placeholder` and `placeholderPair`.
- `DbBind` (`db_bind.dfy`) models `bind`:
  - its meaning, as the character scan `BindSql`;
  - the `explode`-based loop, as the method `Bind`.
- `DbQuery` (`db_query.dfy`) models the `Db_Query` statements and the reading plan of `read`.
- `DateFormat` (`date_format.dfy`) models `timeslot`.

## Quirks of the code the model reproduces

The model follows the code, including these behaviours, which a reader of
the comments alone would not expect.

- **How `bind` treats the template.** `bind` explodes the template on `?`. While template pieces remain, each value adds two things: its literal and the next piece. Two consequences follow:
  - Values beyond the number of marks are ignored (`BindIgnoresExtraValues`).
  - When the values run out, the rest of the template is dropped, starting at the first unfilled mark (`BindDropsUnfilled`). It is not left in place.
- **BETWEEN spacing.** A `BETWEEN_AND` list blanks the op slot, so the clause reads `field  BETWEEN a AND b`, with two spaces (`BetweenList`). `NOT_BETWEEN_AND` puts NOT in the op slot and reads `field NOT BETWEEN a AND b` (`NotBetweenList`).
- **FIELD_GROUP spacing.** A FIELD_GROUP entry blanks both the field and the op, so its text starts with two spaces (`GroupEntryLeadingSpaces`).
- **What the final cut removes.** The cut at the end of `parseCond` uses `$expr`, and `$expr` is reset to AND on every iteration, including iterations for integer keys. Two consequences follow:
  - After a trailing integer-keyed entry, five characters are cut whatever the last conjunction was (`TrailingIntKey`).
  - With a shorter conjunction such as OR, part of the last value is cut too (`TrailingIntKeyCutsValue`).
- **`selectRow` does not quote its table.** It leaves the table after FROM unquoted, while `select` quotes it (`SelectRowTableBare`).
- **Comparisons follow PHP 8.** For example, `qfield` compares with `$fieldName == '*'`; an integer name 0 is not `*` and is quoted.
- **FIELD_GROUP also rewrites literals.** The keys are replaced in the whole compiled text, not only where they stand as keys. A quoted literal that holds `:+0+:` has it replaced by the field too: `'a' => [[['x:+0+:y', '=']], 'FIELD_GROUP']` compares a with `'xay'` (`GroupRewritesLiteral`, `LiteralExample`). Without a colon in the field, operators, literals and conjunctions, the group is exactly its alternates under the field (`GroupReadsAsAlternates`).
- **FIELD_GROUP keys need no case folding.** The group's synthetic keys hold no letters. So the case-insensitive `str_ireplace` behaves as a plain replace, and it is modelled as one (`Replace`).

## Model

| member | source | states |
|---|---|---|
| DbDataSource.Qstr | src/Aert/DbRepo.php:493-500 | ints render as text that reads back as the int; booleans render as 1/0; null renders as NULL; strings go through the driver's quoting |
| DbDataSource.QstrScalarsIgnoreDriver | src/Aert/DbRepo.php:493-500 | the literal of a non-string does not depend on the driver |
| DbDataSource.QstrIntInjective | src/Aert/DbRepo.php:495 | different ints give different literals |
| DbDataSource.SqlLimit | src/Aert/DbRepo.php:595-612 | the result starts with the SQL; an empty limit leaves it unchanged; otherwise ` LIMIT skip, len` is appended, with skip 0 for a scalar limit |
| DbDataSource.SqlLimitReadsBack | src/Aert/DbRepo.php:598-611 | the text after LIMIT splits at the comma into exactly the offset and the length asked for |
| DbDataSource.CountSql | src/Aert/DbRepo.php:590-593 | the counting statement holds the given SQL verbatim as a derived table `t` |
| DbIdentifiers.QTable | src/Aert/DbRepo.php:752-755 | the name between two backticks, nothing escaped |
| DbIdentifiers.QTableInjective | src/Aert/DbRepo.php:752-755 | different table names give different quoted names |
| DbIdentifiers.QFieldReadBack | src/Aert/DbRepo.php:757-761 | a column name other than `*` can be read back from the end of the field, between two backticks; `*` ends the field bare |
| DbIdentifiers.QFieldQualified | src/Aert/DbRepo.php:760 | a qualified field starts with its quoted table and a dot, and never equals the unqualified one |
| DbIdentifiers.QFieldsText | src/Aert/DbRepo.php:763-775 | definition of what `qfields` returns (no contract of its own); its loop `QFields` and the lemmas `QFieldsSingle`, `QFieldsStar` and `QFieldsCons` state what it is |
| DbIdentifiers.FieldNames | src/Aert/DbRepo.php:765-768 | a string gives one name per comma-separated piece, each trimmed; an array is taken as it is |
| DbIdentifiers.QFields | src/Aert/DbRepo.php:763-775 | the loop returns every name quoted, in order, joined by `, ` |
| DbIdentifiers.QFieldsSingle | src/Aert/DbRepo.php:763-775 | a string without commas is one quoted field, its trimmed text |
| DbIdentifiers.QFieldsStar | src/Aert/DbRepo.php:757-775 | the default `*` stays `*`, or becomes the quoted table with `.*` |
| DbIdentifiers.QFieldsCons | src/Aert/DbRepo.php:765-774 | the first comma-separated name comes first, and the rest of the string supplies the rest |
| DbIdentifiers.Kept | src/Aert/DbRepo.php:777-817 | the entries the placeholder builders keep, never more than the row has; `KeptMembers`, `KeptAppend` and `KeptAll` say which and in what order |
| DbIdentifiers.KeptMembers | src/Aert/DbRepo.php:781-786 | an entry is kept exactly when it is in the row and passes the lower-cased field filter |
| DbIdentifiers.KeptAppend | src/Aert/DbRepo.php:783-787 | filtering keeps the row's order: filtering a concatenation concatenates the filtered parts |
| DbIdentifiers.KeptAll | src/Aert/DbRepo.php:788-792 | without a filter every entry is kept |
| DbIdentifiers.Placeholder | src/Aert/DbRepo.php:777-795 | the values are the kept entries in row order, with one `?` per kept entry |
| DbIdentifiers.PlaceholderPair | src/Aert/DbRepo.php:797-817 | the values are the kept entries; there is one `column=?` per kept entry, in the same order |
| DbIdentifiers.PairOneMark | src/Aert/DbRepo.php:805-806 | a pair is the quoted column, `=` and `?`, and holds exactly one mark when the name has none |
| DbBind.BindSql | src/Aert/DbRepo.php:641-651 | definition of `bind`'s result read character by character (no contract of its own); `Bind` is proved to compute it and `FillSplit` ties it to the exploded pieces |
| DbBind.Bind | src/Aert/DbRepo.php:641-651 | the explode-and-shift loop computes exactly the character reading `BindSql` |
| DbBind.FillSplit | src/Aert/DbRepo.php:643-649 | the character reading equals the first exploded piece followed by a literal and a piece per value |
| DbBind.BindKeepsPrefix | src/Aert/DbRepo.php:643-644 | text before the first mark is copied unchanged |
| DbBind.BindNoMarks | src/Aert/DbRepo.php:641-651 | a template without marks comes back unchanged, whatever the values |
| DbBind.BindMark | src/Aert/DbRepo.php:645-648 | a mark takes the literal of the next value, in order |
| DbBind.BindIgnoresExtraValues | src/Aert/DbRepo.php:646 | values beyond the number of marks are ignored |
| DbBind.BindDropsUnfilled | src/Aert/DbRepo.php:645-649 | once the values run out, everything from the first unfilled mark on is dropped |
| DbBind.BindList | src/Aert/DbRepo.php:641-651 | a separator-joined list of marked items binds each mark to its value's literal, in order |
| DbCondition.CompileCond | src/Aert/DbRepo.php:662-750 | definition of what `parseCond` returns (no contract of its own); `ParseCond` is proved to compute it and the `DbConditionProperties` lemmas state its behaviour |
| DbCondition.ParseCond | src/Aert/DbRepo.php:662-750 | the loop returns exactly `CompileCond` of its arguments |
| DbCondition.RenderEntry | src/Aert/DbRepo.php:687-744 | one pass of the loop body yields the entry's field, op and value slots and its normalised conjunction |
| DbCondition.TupleDefaults | src/Aert/DbRepo.php:693-700 | missing op, conj and isCommand become `=`, the reset `$expr` (AND) and false; op and conj are trimmed and upper-cased |
| DbCondition.RenderList | src/Aert/DbRepo.php:702-739 | the `do {} while(false)` dispatch on a list value yields the IN, BETWEEN, FIELD_GROUP or "Array" slots |
| DbCondition.CompileGroup | src/Aert/DbRepo.php:722-734 | the alternates are keyed `:+k+:`, compiled in parentheses, and each key is replaced by the field in turn |
| DbCondition.WhereStep | src/Aert/DbRepo.php:680-746 | each iteration appends its entry's clause and sets `$expr` to AND, or to that entry's conjunction |
| DbConditionProperties.CompileTrivial | src/Aert/DbRepo.php:664-670 | an empty or non-string scalar, or an empty array, gives ""; a non-empty string is returned verbatim |
| DbConditionProperties.NormalizeBare | src/Aert/DbRepo.php:687-697 | a bare value is the tuple (value, `=`, AND, false) |
| DbConditionProperties.ScalarClause | src/Aert/DbRepo.php:697-745 | a scalar entry appends `field OP v CONJ `, where v is the raw text for a command and the quoted literal otherwise |
| DbConditionProperties.LoneScalarEntry | src/Aert/DbRepo.php:680-749 | `[field => v]` compiles to exactly `field = qstr(v)` |
| DbConditionProperties.WhereAppend | src/Aert/DbRepo.php:680-746 | clauses follow iteration order: compiling a concatenation of entries concatenates their clauses |
| DbConditionProperties.IntKeyEmitsNothing | src/Aert/DbRepo.php:684-686 | an entry with an integer key adds nothing, wherever it stands |
| DbConditionProperties.TrimsOwnConjunction | src/Aert/DbRepo.php:745-748 | when the last entry has a string key, the result is the clause text minus that entry's ` CONJ ` |
| DbConditionProperties.TrailingIntKey | src/Aert/DbRepo.php:682-686 | after a trailing integer-keyed entry, five characters are cut whatever the last conjunction was |
| DbConditionProperties.TrailingIntKeyCutsValue | src/Aert/DbRepo.php:682-748 | with a conjunction shorter than AND before a trailing integer key, the end of the last clause itself is cut |
| DbConditionProperties.TwoEntries | src/Aert/DbRepo.php:745-748 | of two string-keyed entries, the first keeps its conjunction and the second's is cut |
| DbConditionProperties.DashWrapsOnce | src/Aert/DbRepo.php:749 | asking for parentheses wraps a non-empty array's text in exactly one pair |
| DbConditionProperties.InList | src/Aert/DbRepo.php:705-708 | `=`, IN and NOT IN lists compile to `field OP (l1,...,ln)`, with `=` turned into IN |
| DbConditionProperties.BetweenList | src/Aert/DbRepo.php:711-717 | BETWEEN_AND compiles to `field  BETWEEN a AND b` (two spaces), with missing bounds as NULL |
| DbConditionProperties.NotBetweenList | src/Aert/DbRepo.php:711-717 | NOT_BETWEEN_AND compiles to `field NOT BETWEEN a AND b` |
| DbConditionProperties.ListIgnoresCommandFlag | src/Aert/DbRepo.php:739 | a list value is always a command, so the isCommand position does not change its clause |
| DbConditionProperties.OtherListOperator | src/Aert/DbRepo.php:702-745 | a list under any other operator is interpolated as the text "Array" |
| DbConditionProperties.GroupEntryLeadingSpaces | src/Aert/DbRepo.php:733 | a FIELD_GROUP entry blanks field and op, so its text is two spaces and the group |
| DbConditionProperties.ReplaceTokensKeepsParens | src/Aert/DbRepo.php:729-731 | replacing the synthetic keys leaves the outer parentheses in place |
| DbConditionProperties.GroupIsParenthesised | src/Aert/DbRepo.php:722-734 | a non-empty FIELD_GROUP is the alternates compiled without parentheses, keys replaced by the field, inside exactly one outer pair |
| DbFieldGroup.GroupReadsAsAlternates | src/Aert/DbRepo.php:720-734 | when neither the field nor any alternate's operator, literal or conjunction holds a colon, a FIELD_GROUP is exactly its alternates compiled under the field itself, in one pair of parentheses: `(field op v conj ... field op v)` |
| DbFieldGroupCases.DocumentedTerms | src/Aert/DbRepo.php:693-700 | the alternates `[15, '>', 'OR']`, `[5, '<', 'AND']` and `[32, '!=']` keep their values, operators and conjunctions, the last with AND |
| DbFieldGroupCases.ThreeAlternates | src/Aert/DbRepo.php:720-745 | three integer alternates read `(field op n conj field op n conj field op n)`, in order, with the last conjunction cut |
| DbFieldGroupCases.DocumentedGroup | src/Aert/DbRepo.php:720-721 | the group of the source comment reads `(a > 15 OR a < 5 AND a != 32)` for a field a |
| DbFieldGroupCases.GroupRewritesLiteral | src/Aert/DbRepo.php:729-731 | a quoted literal that holds the key `:+0+:` has it replaced by the field as well |
| DbFieldGroupCases.LiteralExample | src/Aert/DbRepo.php:722-734 | with single-quote quoting, `'a' => [[['x:+0+:y', '=']], 'FIELD_GROUP']` gives the group `(a = 'xay')` |
| DbQuery.Introduced | src/Aert/DbRepo.php:118-119 | the text always ends the clause, and the keyword with one space is put in front exactly when PHP finds the text true |
| DbQuery.WhereSuffix | src/Aert/DbRepo.php:230-231 | nothing is appended exactly when PHP finds the condition false; otherwise the same WHERE clause `select` builds, after a space |
| DbQuery.SelectRowSql | src/Aert/DbRepo.php:115-126 | definition of the `selectRow` statement (no contract of its own); `SelectRowTableBare` relates it to `select` |
| DbQuery.SelectSql | src/Aert/DbRepo.php:140-154 | definition of the `select` statement (no contract of its own); stated by `SelectEverything`, `SelectByColumn` and `SelectPlanLimit` |
| DbQuery.SelectRowTableBare | src/Aert/DbRepo.php:115-154 | `selectRow` and `select` agree except at the table after FROM, which only `select` quotes |
| DbQuery.SelectEverything | src/Aert/DbRepo.php:140-154 | no condition, no sort and `*` select the quoted table's `.*`, with the two empty clause slots |
| DbQuery.SelectByColumn | src/Aert/DbRepo.php:140-154 | `[field => v]` turns into `WHERE field = literal` between FROM and the sort |
| DbQuery.ReadAll | src/Aert/DbRepo.php:358-377 | a count statement exists exactly with the counter; no rows are read exactly when the counted total is 0; the rows statement is the LIMITed SQL |
| DbQuery.CountIgnoresLimit | src/Aert/DbRepo.php:363-369 | the total is counted over the SQL without its LIMIT, whatever limit was asked for |
| DbQuery.RowsStatement | src/Aert/DbRepo.php:369-376 | the rows statement starts with the SQL and differs from it exactly when a limit is given |
| DbQuery.SelectPlanLimit | src/Aert/DbRepo.php:149-153 | turning an empty limit into false leaves the reading plan unchanged |
| DbQuery.CountQuerySql | src/Aert/DbRepo.php:166-185 | definition of the `count` statement (no contract of its own); stated by `CountPaddedStar` and `CountDistinct` |
| DbQuery.CountPaddedStar | src/Aert/DbRepo.php:172-177 | a star with surrounding spaces counts rows, like a null field list |
| DbQuery.CountDistinct | src/Aert/DbRepo.php:168-183 | DISTINCT only inserts its keyword in front of the counted expression |
| DbQuery.InsertSql | src/Aert/DbRepo.php:196-208 | definition of the `insert` statement, the template bound to the row (no contract of its own); stated by `InsertShape` |
| DbQuery.InsertShape | src/Aert/DbRepo.php:196-208 | when no name holds `?`, the INSERT lists every column, then every value's literal in the same order |
| DbQuery.UpdateSql | src/Aert/DbRepo.php:219-236 | definition of the `update` statement (no contract of its own); stated by `UpdateShape`, `UpdateNeedsRow` and `UpdateCondUnbound` |
| DbQuery.UpdateShape | src/Aert/DbRepo.php:219-236 | when no name holds `?`, the UPDATE sets each column to its value's literal in order, then adds the condition |
| DbQuery.UpdateNeedsRow | src/Aert/DbRepo.php:221 | an empty row gives no statement, and any other row gives one |
| DbQuery.UpdateCondUnbound | src/Aert/DbRepo.php:228-231 | the condition is appended after binding and ends the statement as ` WHERE cond` |
| DbQuery.DelSql | src/Aert/DbRepo.php:246-256 | definition of the `del` statement (no contract of its own); stated by `DelShape` and `DelByColumn` |
| DbQuery.DelShape | src/Aert/DbRepo.php:246-256 | an empty condition or a non-string scalar deletes every row (`DELETE FROM t `); a raw SQL string follows `WHERE` verbatim |
| DbQuery.DelByColumn | src/Aert/DbRepo.php:246-256 | `[field => v]` deletes with `WHERE field = literal` |
| DbQuery.IncrFieldSql | src/Aert/DbRepo.php:268-283 | definition of the `incrField` statement (no contract of its own); stated by `IncrFieldShape` |
| DbQuery.IncrFieldShape | src/Aert/DbRepo.php:268-283 | a statement is made exactly for a non-empty field; it sets the field to itself plus an increment that reads back as the one given, then the condition |
| PhpStrings.IntToStringRoundTrip | src/Aert/DbRepo.php:495 | the decimal text of an int reads back as that int |
| PhpStrings.JoinSplit | src/Aert/DbRepo.php:643 | `implode` undoes `explode` on a one-character separator |
| PhpStrings.DropLast | src/Aert/DbRepo.php:748 | `substr($s, 0, -n)` keeps all but the last n characters, or gives "" when s is not longer than n |
| DateFormat.Timeslot | src/Aert/DateFormat.php:28-120 | 0 comes back exactly for a non-positive duration; otherwise there are one or two parts, the first positive |
| DateFormat.Phrase | src/Aert/DateFormat.php:95-117 | definition of the `sprintf` text of the parts (no contract of its own); stated by `PhraseOfParts` and `TimeslotSamples` |
| DateFormat.PhraseOfParts | src/Aert/DateFormat.php:9-17 | one or two parts read as each number followed by its unit word, as the seven formats write them |
| DateFormat.TimeslotDays | src/Aert/DateFormat.php:38-45 | from a day on, the phrase is the days plus any leftover hours |
| DateFormat.TimeslotHours | src/Aert/DateFormat.php:48-54 | from an hour up to a day, the phrase is the hours plus any leftover minutes |
| DateFormat.TimeslotMinutes | src/Aert/DateFormat.php:56-72 | from a minute up to an hour with leftover seconds: minutes and seconds, or, without seconds, minutes rounded up for `ceil` and down otherwise |
| DateFormat.TimeslotSeconds | src/Aert/DateFormat.php:74-90 | under a minute: the seconds, or one minute whatever the mode |
| DateFormat.TimeslotBounds | src/Aert/DateFormat.php:97-116 | a second part is positive and below its unit's bound (24 hours, 60 minutes, 60 seconds) |
| DateFormat.TimeslotTruncates | src/Aert/DateFormat.php:33-116 | apart from the rounding without seconds, the phrase never overstates the duration and falls short by less than its smallest unit |
| DateFormat.TimeslotRounds | src/Aert/DateFormat.php:56-90 | without seconds below an hour, `ceil` rounds up to a minute and other modes round down; under a minute both say one minute |
| DateFormat.TimeslotSamples | src/Aert/DateFormat.php:9-17 | 90000 seconds read `1天1小时`, and 61 seconds without seconds in `ceil` mode read `2分钟` |

## Left out

- Execution is not modelled: the statements are produced as text. This leaves out:
  - running them through PDO;
  - the logging;
  - the exceptions of `execute` and `query`;
  - transactions;
  - `insert_id` and `affected_rows`;
  - the other read and write modes of `Db_Actor`.
- `PDO::quote` is an arbitrary string function. So nothing about SQL injection is claimed.
- A condition list whose items are arrays, where the code passes them to `qstr`, makes `PDO::quote` throw. The model requires that those items be scalars (`QuotableTerm`); it does not model the exception.
- Floats are not modelled:
  - float values and `sql_limit`'s `intval` of non-integers;
  - float seconds in `timeslot`;
  - the floats that `timeslot`'s `floor()` returns even for an integer duration. The model's integer quotients are exact, while PHP's are rounded from 2^53 (about 9.0e15) seconds on: there, when `$seconds / 60` is not exact, PHP converts the integer to a float before dividing, so the dividend itself is rounded (for 9007199254742399 seconds PHP prints `104249991374天8小时` where the model gives `104249991374天7小时`), and from 8.64e18 seconds PHP prints the days in exponent form (`1.0E+14`).
- A Dafny `char` stands for one PHP byte. PHP's `strlen` and `substr` count bytes, so text with multi-byte characters is measured differently. This shows only in the final cut of `parseCond` after a trailing integer key: for `['a' => [5, '=', '或'], 0 => 1]`, PHP cuts 5 of the 10 bytes of `a = 5 或 ` and returns `a = 5`, while the model, reading `或` as one character, returns `a =`.
- `Table.php`, `FileDownload.php` and `Minifier.php` are not part of this model.
- `queryNode`, `dbTimeStamp` and `dump` are not part of this model. They do not build SQL from conditions.
- `Db_DataSource::sql_cond` only delegates to `parseCond`, so it has no model of its own.
- PHP references are not modelled. These are `& $inputarr` and `$values[$key] =& ...` in the placeholder builders; the model returns copies.
- These argument forms are left out:
  - the `returnArray` form of `qfields`;
  - `count` with an array `$fields`;
  - a `$ceilorfloor` that is not a string;
  - a non-boolean `$nosecond` or `isCommand`;
  - list values with non-sequential keys.
- PHP's conversion of numeric-string array keys to integers is not modelled. A key is taken as given, string or integer.
- Lower- and upper-casing cover ASCII letters only, as PHP 8 `strtolower`/`strtoupper` do.
- DbFieldGroup.GroupReadsAsAlternates: covers only alternates that are not FIELD_GROUPs themselves and hold no colon, because the replacement also rewrites keys that appear inside the text, as `GroupRewritesLiteral` shows.
- DateFormat.TimeslotTruncates: excludes the `nosecond` rounding below an hour, which the separate `TimeslotRounds` covers.
