/** The entry point `parseSourceFile`: it runs the external extraction step,
    writes one diagnostic line per discovered table and per column of each
    table, and hands the extraction result back untouched. */
module Parser {
  import opened Wrappers
  import opened ColumnTypes

  /** A loaded source file; only its path is read here. */
  datatype SourceFile = SourceFile(filePath: string)

  /** A table inferred from the source: its columns in declaration order and
      each column's inferred type, keyed by column name. */
  datatype TableSchema = TableSchema(
    tableName: string,
    columnNames: seq<string>,
    columnDescriptors: map<string, Descriptor>)

  /** What the extraction step produces. Queries are opaque here. */
  datatype Extraction<Q> = Extraction(queries: seq<Q>, tableSchemas: seq<TableSchema>)

  /** The four diagnostic channels the module declares. */
  datatype Channel = File | Query | Subquery | Table

  /** One call of a diagnostic logger, recorded by what it reports;
      `ChannelOf` and `Message` give the channel and the text it prints. */
  datatype TraceLine =
    | StartParsing(path: string)
    | ParsedFile(path: string)
    | TableHeader(table: string)
    | ColumnEntry(column: string, descriptor: Descriptor)

  function ChannelOf(line: TraceLine): Channel
  {
    match line
    case StartParsing(_) => File
    case ParsedFile(_) => File
    case TableHeader(_) => Table
    case ColumnEntry(_, _) => Table
  }

  /** The message string handed to the logger. Table-channel messages are
      indented under the file lines, columns deeper than their table; the
      file line after extraction ends with `:`; a column's message ends with
      its formatted type. */
  function Message(line: TraceLine): (m: string)
    ensures |m| > 0
    ensures ChannelOf(line) == Table <==> m[0] == ' '
    ensures line.TableHeader? ==> "  Table: " <= m && m[|"  Table: "|..] == line.table
    ensures line.ColumnEntry? ==>
      var ty := StringifyColumnType(line.descriptor);
      "    Column \"" <= m && |ty| <= |m| && m[|m| - |ty|..] == ty
    ensures line.ParsedFile? ==> m[|m| - 1] == ':'
  {
    match line
    case StartParsing(path) => "Start parsing file " + path
    case ParsedFile(path) => "Parsed file " + path + ":"
    case TableHeader(table) => "  Table: " + table
    case ColumnEntry(column, d) => "    Column \"" + column + "\": " + StringifyColumnType(d)
  }

  /** Why a call fails: the extraction step failed (passed on as is), or a
      column listed in `columnNames` has no descriptor, so formatting its
      type reads a field of `undefined` and throws. */
  datatype ParseError<E> = ExtractionFailed(cause: E) | MissingDescriptor(table: string, column: string)

  /** The first `n` columns of `t` all have a descriptor. */
  predicate DescribedUpTo(t: TableSchema, n: nat)
    requires n <= |t.columnNames|
  {
    forall k :: 0 <= k < n ==> t.columnNames[k] in t.columnDescriptors
  }

  /** Every column of `t` has a descriptor. */
  predicate Described(t: TableSchema)
  {
    DescribedUpTo(t, |t.columnNames|)
  }

  predicate AllDescribed(ts: seq<TableSchema>)
  {
    forall i :: 0 <= i < |ts| ==> Described(ts[i])
  }

  /** The lines for the first `n` columns of `t`, in `columnNames` order:
      line `k` names column `k` and shows its formatted type. */
  function ColumnLines(t: TableSchema, n: nat): (lines: seq<TraceLine>)
    requires n <= |t.columnNames| && DescribedUpTo(t, n)
    ensures |lines| == n
    ensures forall k :: 0 <= k < n ==>
      lines[k] == ColumnEntry(t.columnNames[k], t.columnDescriptors[t.columnNames[k]])
    decreases n
  {
    if n == 0 then []
    else ColumnLines(t, n - 1) + [ColumnEntry(t.columnNames[n - 1], t.columnDescriptors[t.columnNames[n - 1]])]
  }

  /** The lines for one table: its name, then each of its columns. */
  function TableBlock(t: TableSchema): seq<TraceLine>
    requires Described(t)
  {
    [TableHeader(t.tableName)] + ColumnLines(t, |t.columnNames|)
  }

  /** The lines for a list of tables, table after table. */
  function TablesTrace(ts: seq<TableSchema>): seq<TraceLine>
    requires AllDescribed(ts)
    decreases |ts|
  {
    if |ts| == 0 then []
    else
      var init := ts[..|ts| - 1];
      assert forall i :: 0 <= i < |init| ==> init[i] == ts[i];
      TablesTrace(init) + TableBlock(ts[|ts| - 1])
  }

  /** Column `j` of table `i` is the first column, in trace order, that has
      no descriptor. */
  predicate FirstMissing(ts: seq<TableSchema>, i: int, j: int)
  {
    && 0 <= i < |ts|
    && 0 <= j < |ts[i].columnNames|
    && ts[i].columnNames[j] !in ts[i].columnDescriptors
    && AllDescribed(ts[..i])
    && DescribedUpTo(ts[i], j)
  }

  /** The lines written before the run stops at a missing descriptor: all
      earlier tables, then this table's name and its columns before `j`. */
  function LinesBeforeMissing(ts: seq<TableSchema>, i: int, j: int): seq<TraceLine>
    requires FirstMissing(ts, i, j)
  {
    TablesTrace(ts[..i]) + [TableHeader(ts[i].tableName)] + ColumnLines(ts[i], j)
  }

  /** The two file-channel lines written around the extraction step. */
  function FileLines(file: SourceFile): seq<TraceLine>
  {
    [StartParsing(file.filePath), ParsedFile(file.filePath)]
  }

  /** Writes the lines for one table: its name, then each column with its
      formatted type. Stops at the first column without a descriptor and
      reports its position. */
  method TraceTable(table: TableSchema) returns (lines: seq<TraceLine>, missing: Option<nat>)
    ensures missing.None? ==> Described(table) && lines == TableBlock(table)
    ensures missing.Some? ==>
      && missing.value < |table.columnNames|
      && table.columnNames[missing.value] !in table.columnDescriptors
      && DescribedUpTo(table, missing.value)
      && lines == [TableHeader(table.tableName)] + ColumnLines(table, missing.value)
  {
    lines := [TableHeader(table.tableName)];
    var j := 0;
    while j < |table.columnNames|
      invariant 0 <= j <= |table.columnNames|
      invariant DescribedUpTo(table, j)
      invariant lines == [TableHeader(table.tableName)] + ColumnLines(table, j)
    {
      var columnName := table.columnNames[j];
      if columnName !in table.columnDescriptors {
        return lines, Some(j);
      }
      lines := lines + [ColumnEntry(columnName, table.columnDescriptors[columnName])];
      j := j + 1;
    }
    missing := None;
  }

  lemma AllDescribedStep(ts: seq<TableSchema>, i: nat)
    requires i < |ts| && AllDescribed(ts[..i]) && Described(ts[i])
    ensures AllDescribed(ts[..i + 1])
  {
    assert forall k :: 0 <= k < i ==> ts[..i + 1][k] == ts[..i][k];
  }

  lemma TablesTraceStep(ts: seq<TableSchema>, i: nat)
    requires i < |ts| && AllDescribed(ts[..i + 1])
    ensures AllDescribed(ts[..i])
    ensures TablesTrace(ts[..i + 1]) == TablesTrace(ts[..i]) + TableBlock(ts[i])
  {
    assert ts[..i + 1][..i] == ts[..i];
  }

  /** Writes the lines for every table in order. Stops at the first column
      without a descriptor and reports the table and column positions. */
  method TraceTables(ts: seq<TableSchema>) returns (lines: seq<TraceLine>, missing: Option<(nat, nat)>)
    ensures missing.None? ==> AllDescribed(ts) && lines == TablesTrace(ts)
    ensures missing.Some? ==>
      var (i, j) := missing.value;
      FirstMissing(ts, i, j) && lines == LinesBeforeMissing(ts, i, j)
  {
    lines := [];
    var i := 0;
    while i < |ts|
      invariant 0 <= i <= |ts|
      invariant AllDescribed(ts[..i])
      invariant lines == TablesTrace(ts[..i])
    {
      var table := ts[i];
      var block, missingColumn := TraceTable(table);
      if missingColumn.Some? {
        lines := lines + block;
        missing := Some((i, missingColumn.value));
        return;
      }
      AllDescribedStep(ts, i);
      TablesTraceStep(ts, i);
      lines := lines + block;
      i := i + 1;
    }
    assert ts[..i] == ts;
    missing := None;
  }

  /** Runs over the result of the extraction step, which is passed in, and
      returns it unchanged together with the diagnostic lines the run
      writes. A failed extraction is passed on after the start line only; a
      column without a descriptor stops the run at that column. */
  method ParseSourceFile<Q, E>(file: SourceFile, extracted: Result<Extraction<Q>, E>)
    returns (r: Result<Extraction<Q>, ParseError<E>>, trace: seq<TraceLine>)
    ensures extracted.Failure? ==>
      r == Failure(ExtractionFailed(extracted.error)) && trace == [StartParsing(file.filePath)]
    ensures extracted.Success? && AllDescribed(extracted.value.tableSchemas) ==>
      && r == Success(extracted.value)
      && trace == FileLines(file) + TablesTrace(extracted.value.tableSchemas)
    ensures extracted.Success? && !AllDescribed(extracted.value.tableSchemas) ==>
      var ts := extracted.value.tableSchemas;
      exists i, j :: FirstMissing(ts, i, j)
        && r == Failure(MissingDescriptor(ts[i].tableName, ts[i].columnNames[j]))
        && trace == FileLines(file) + LinesBeforeMissing(ts, i, j)
  {
    trace := [StartParsing(file.filePath)];
    if extracted.Failure? {
      r := Failure(ExtractionFailed(extracted.error));
      return;
    }
    var queries, tableSchemas := extracted.value.queries, extracted.value.tableSchemas;
    trace := trace + [ParsedFile(file.filePath)];
    assert trace == FileLines(file);
    var lines, missing := TraceTables(tableSchemas);
    trace := trace + lines;
    if missing.Some? {
      var (i, j) := missing.value;
      r := Failure(MissingDescriptor(tableSchemas[i].tableName, tableSchemas[i].columnNames[j]));
      assert !Described(tableSchemas[i]);
      return;
    }
    r := Success(Extraction(queries, tableSchemas));
  }

  /** Every table and column line goes to the table channel; the two file
      lines go to the file channel. */
  lemma {:induction false} TraceChannels(file: SourceFile, ts: seq<TableSchema>)
    requires AllDescribed(ts)
    ensures forall k :: 0 <= k < |FileLines(file)| ==> ChannelOf(FileLines(file)[k]) == File
    ensures forall k :: 0 <= k < |TablesTrace(ts)| ==> ChannelOf(TablesTrace(ts)[k]) == Table
    decreases |ts|
  {
    if |ts| > 0 {
      var init := ts[..|ts| - 1];
      assert forall i :: 0 <= i < |init| ==> init[i] == ts[i];
      TraceChannels(file, init);
      var t := ts[|ts| - 1];
      var columns := ColumnLines(t, |t.columnNames|);
      assert forall k :: 0 <= k < |columns| ==> columns[k].ColumnEntry?;
    }
  }

  /** Total number of columns over a list of tables. */
  function ColumnCount(ts: seq<TableSchema>): nat
    decreases |ts|
  {
    if |ts| == 0 then 0 else ColumnCount(ts[..|ts| - 1]) + |ts[|ts| - 1].columnNames|
  }

  /** The table lines hold one line per table plus one per column. */
  lemma {:induction false} TraceLength(ts: seq<TableSchema>)
    requires AllDescribed(ts)
    ensures |TablesTrace(ts)| == |ts| + ColumnCount(ts)
    decreases |ts|
  {
    if |ts| > 0 {
      var init := ts[..|ts| - 1];
      assert forall i :: 0 <= i < |init| ==> init[i] == ts[i];
      TraceLength(init);
    }
  }

  /** The lines of the first `n` tables open the lines of all tables. */
  lemma {:induction false} TracePrefix(ts: seq<TableSchema>, n: nat)
    requires AllDescribed(ts) && n <= |ts|
    ensures AllDescribed(ts[..n])
    ensures TablesTrace(ts[..n]) <= TablesTrace(ts)
    decreases |ts|
  {
    if n < |ts| {
      var init := ts[..|ts| - 1];
      assert forall i :: 0 <= i < |init| ==> init[i] == ts[i];
      TracePrefix(init, n);
      assert init[..n] == ts[..n];
    } else {
      assert ts[..n] == ts;
    }
  }

  /** Table `i`'s block of lines sits in the whole trace right after the
      lines of the tables before it. */
  lemma BlockInTrace(ts: seq<TableSchema>, i: nat)
    requires AllDescribed(ts) && i < |ts|
    ensures AllDescribed(ts[..i])
    ensures var start := |TablesTrace(ts[..i])|;
      && start + |TableBlock(ts[i])| <= |TablesTrace(ts)|
      && TablesTrace(ts)[start..start + |TableBlock(ts[i])|] == TableBlock(ts[i])
  {
    TracePrefix(ts, i + 1);
    TablesTraceStep(ts, i);
    var pre, block := TablesTrace(ts[..i]), TableBlock(ts[i]);
    var whole := TablesTrace(ts);
    assert whole[..|pre| + |block|] == pre + block;
    assert (pre + block)[|pre|..] == block;
  }

  /** Where each table line sits: after the line of every earlier table and
      of every column of those tables. */
  lemma TableLineAt(ts: seq<TableSchema>, i: nat)
    requires AllDescribed(ts) && i < |ts|
    ensures var offset := i + ColumnCount(ts[..i]);
      offset < |TablesTrace(ts)| && TablesTrace(ts)[offset] == TableHeader(ts[i].tableName)
  {
    BlockInTrace(ts, i);
    TraceLength(ts[..i]);
    var start := |TablesTrace(ts[..i])|;
    assert TablesTrace(ts)[start..start + |TableBlock(ts[i])|][0] == TableBlock(ts[i])[0];
  }

  /** Where each column line sits: right after its table's line, in
      `columnNames` order. */
  lemma ColumnLineAt(ts: seq<TableSchema>, i: nat, j: nat)
    requires AllDescribed(ts) && i < |ts| && j < |ts[i].columnNames|
    ensures ts[i].columnNames[j] in ts[i].columnDescriptors
    ensures var offset := i + ColumnCount(ts[..i]) + 1 + j;
      && offset < |TablesTrace(ts)|
      && TablesTrace(ts)[offset] == ColumnEntry(ts[i].columnNames[j], ts[i].columnDescriptors[ts[i].columnNames[j]])
  {
    assert Described(ts[i]);
    BlockInTrace(ts, i);
    TraceLength(ts[..i]);
    var start := |TablesTrace(ts[..i])|;
    var block := TableBlock(ts[i]);
    assert TablesTrace(ts)[start..start + |block|][1 + j] == block[1 + j];
  }
}
