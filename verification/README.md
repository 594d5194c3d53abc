# postguard parser front end, modelled in Dafny

This project models the front of postguard's parsing stage, `src/parser.ts`. postguard checks the SQL queries in TypeScript sources against inferred table schemas. The module does three things:

- `formatColumnRefs` renders the columns a query references as one line of text.
- `stringifyColumnType` renders one column's inferred type. Examples are `integer[string] (nullable)` and `enum (default value) ['a', 'b']`.
- `parseSourceFile` runs the Babel-based extraction step. It writes one debug line for each table and each column it found, then returns the queries and table schemas untouched.

Modules:

- `Wrappers`: `Option` and `Result`.
- `Strings`: `Join` (`Array.prototype.join`) and its inverse `Split` for the `", "` separator, plus `Span`, the longest prefix that avoids a set of stop characters.
- `ColumnRefs`: the reference renderer. It also has a reader, `ParseColumnRefs`, that recovers the references from a rendering.
- `ColumnTypes`: the type renderer. It also has a reader, `ParseColumnType`, that recovers from a rendering everything the rendering shows. That projection is called `Visible`.
- `Parser`: `parseSourceFile`.
  - The extraction step's outcome is a parameter.
  - The debug output is a real out-parameter: a list of structured `TraceLine`s.
  - `ChannelOf` gives each line's channel, and `Message` gives the message string passed to the logger.
  - `TablesTrace` is a declarative definition of the expected table lines. The loop methods are proved against it.

Three behaviours of the code worth knowing:

- A table may list a column that has no entry in `columnDescriptors`.
  - The source formats `undefined` in that case (line 47), and reading `.hasDefault` from it throws (for names that are not inherited object properties; see "## Left out").
  - The model returns `MissingDescriptor(table, column)`. The trace stops at that column.
- An `enum` type with no literal list does not get the enum rendering.
  - The guard on line 29 also requires the list to be present.
  - Such a type falls through to the general branch and renders as `enum`, its subtype's `[type]` if any, and its qualifiers (`EnumWithoutList`).
- Type strings are built eagerly, once per column: line 47 runs even when the table channel is disabled. The model does not depend on it either way.

## Model

| member | source | states |
|---|---|---|
| ColumnRefs.RenderAll | src/parser.ts:15-17 | one rendered piece per reference, in input order: `table.column` for a qualified reference, the bare name otherwise |
| ColumnRefs.FormatColumnRefs | src/parser.ts:14-19 | an empty reference list gives `-`; a single reference gives exactly its own rendering |
| ColumnRefs.PlaceholderOnlyWhenEmpty | src/parser.ts:18 | the output is `-` exactly when the list is empty or is the one bare column named `-` (both directions) |
| ColumnRefs.FormatAppend | src/parser.ts:15-18 | formatting two non-empty lists back to back is formatting each and joining them with `, `: order is kept, nothing is sorted or deduplicated |
| ColumnRefs.ParseFormat | src/parser.ts:14-19 | round trip: the references read back from the output equal the input, for names without commas and without a `.` before the column, and excluding the list `[-]` |
| ColumnRefs.PlaceholderCollision | src/parser.ts:16-18 | the single bare column `-` formats the same as the empty list, which is why the round trip excludes it |
| ColumnRefs.FormatExample | src/parser.ts:14-19 | a bare `id` and a qualified `users.name` format as `id, users.name` |
| Strings.Split | src/parser.ts:18 | inverse of the join at line 18: splitting at `, ` gives at least one piece, and joining the pieces with `, ` gives the original string back |
| Strings.SplitJoin | src/parser.ts:18 | inverse of the join at line 18: splitting a `, `-join of comma-free pieces gives back exactly those pieces |
| ColumnTypes.Props | src/parser.ts:22-25 | `default value` is listed iff `hasDefault`, `nullable` iff `nullable`, nothing else is listed (the length is the number of set flags), and when both are listed `default value` comes first |
| ColumnTypes.PropsString | src/parser.ts:27 | the qualifier segment is empty iff neither flag is set; otherwise it starts with a space |
| ColumnTypes.QualifierSegment | src/parser.ts:22-27 | the four possible segments: empty, ` (default value)`, ` (nullable)`, ` (default value, nullable)` |
| ColumnTypes.QuoteAll | src/parser.ts:30 | every enum literal is wrapped in single quotes, in order |
| ColumnTypes.StringifyColumnType | src/parser.ts:21-36 | the enum rendering starts with `enum` and ends with `]`; every other rendering starts with the type name |
| ColumnTypes.OnlyVisibleMatters | src/parser.ts:29-34 | descriptors that agree on the qualifiers and the enum literals, or on the type name and the subtype's type name, render the same; nothing else of the subtype is shown |
| ColumnTypes.ParseStringify | src/parser.ts:21-36 | round trip: for well-formed names, reading a rendering back gives exactly the descriptor's visible part, either enum literals with qualifiers or type, subtype type and qualifiers |
| ColumnTypes.StringifyInjective | src/parser.ts:21-36 | well-formed descriptors with equal renderings agree on everything the rendering shows |
| ColumnTypes.EnumWithoutList | src/parser.ts:29-34 | an `enum` type without a literal list, with or without a subtype, falls through to the general branch: no bracketed literal list, just `enum`, the subtype's `[type]` when there is one, and the qualifiers |
| ColumnTypes.EnumExample | src/parser.ts:29-30 | an enum with literals `a` and `b` and no qualifiers renders as `enum ['a', 'b']` |
| ColumnTypes.EmptyEnumExample | src/parser.ts:29-30 | an enum whose literal list is present but empty renders as `enum []` |
| ColumnTypes.SubtypeExample | src/parser.ts:32-34 | a nullable `integer` with element type `string` renders as `integer[string] (nullable)` |
| Parser.ColumnLines | src/parser.ts:46-49 | one line per column, in `columnNames` order, each naming the column and carrying its descriptor |
| Parser.TraceTable | src/parser.ts:45-49 | the table line, then one line per column in order; or, at the first column without a descriptor, the lines up to that column and its position |
| Parser.TraceTables | src/parser.ts:44-50 | the blocks of every table in order; or the lines written before the first column without a descriptor, with that column's table and column positions |
| Parser.ParseSourceFile | src/parser.ts:38-53 | a failed extraction is passed on after the start line only; if every column is described, the extraction result comes back unchanged after the two file lines and all table lines; otherwise the run fails naming the first undescribed column, after the lines that precede it |
| Parser.TraceLength | src/parser.ts:44-50 | the table lines hold one line per table plus one per column |
| Parser.TracePrefix | src/parser.ts:44-50 | the lines of the first `n` tables open the lines of all tables |
| Parser.BlockInTrace | src/parser.ts:44-50 | each table's block sits in the trace right after the blocks of the tables before it |
| Parser.TableLineAt | src/parser.ts:45 | table `i`'s header line is at offset `i` plus the column count of the tables before it |
| Parser.ColumnLineAt | src/parser.ts:46-48 | column `j` of table `i` is described, and its line sits `1 + j` lines after its table's header line |
| Parser.Message | src/parser.ts:39-48 | the message string of each logger call: non-empty; indented (first character a space) exactly for table-channel lines; a table line is `  Table: ` then the table name; a column line starts `    Column "` and ends with the column's formatted type; the parsed-file line ends with `:` |
| Parser.TraceChannels | src/parser.ts:39-48 | the start and parsed-file lines go to the file channel; every table and column line goes to the table channel |

## Left out

- The `debug` package and the channel objects (lines 1, 9-12): whether a channel is enabled and where its output goes are not modelled. The trace records every logger call, and `ChannelOf` says which channel each call uses. The query and subquery channels are declared but unused (lines 10-11), so they appear only as `Channel` constructors.
- The `debug` package's own formatting: it treats the message as a format string (`%s`, `%o`, `%d`, `%j`, `%%`), so a path or name containing `%` prints differently, and it adds the namespace before the message and a `+Nms` time suffix after it. `Message` is the string handed to the logger, before that formatting.
- Parser.ParseSourceFile: the lookup `table.columnDescriptors[columnName]` (line 47) is modelled as own-key membership in a map. A column named after an inherited property of a plain JavaScript object (`constructor`, `toString`, `valueOf`, `hasOwnProperty`, `__proto__`) finds that inherited value instead, renders as `undefined` and does not stop the run; the model treats such a name like any other missing key and fails with `MissingDescriptor`. Such names are not covered.
- `parseSourceFileUsingBabel` and `loadSourceFile` (line 5, line 40): the extraction step is foreign code. Its outcome is a parameter, either the queries and table schemas or an error that is propagated unchanged.
- Queries are opaque: the type parameter `Q` stands for the query type, which the module never inspects.
- `getAllSubqueries` (line 3) is imported but never called.
- `ColumnDescriptor` from `squid` and the `./types` module are not part of this model. Only the fields the renderer reads are kept. `nullable` and `hasDefault` are modelled as booleans, not as JavaScript truthiness.
- ColumnTypes.ParseStringify: the round trip is stated only for well-formed names, since the rendering itself is ambiguous otherwise. Well-formed here means:
  - a type name with no space or `[`;
  - a subtype name with no `]`;
  - enum literals with no `'`.
- ColumnRefs.ParseFormat: likewise, the round trip needs names without a comma, and no `.` in a table name or a bare column. It also excludes the bare column `-`.
- Idempotence of the formatters is not stated separately, since pure functions give equal outputs for equal inputs.
