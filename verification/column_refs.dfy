/** Rendering of the column references a query touches (`formatColumnRefs`),
    together with a reader that recovers the references from the rendering. */
module ColumnRefs {
  import opened Strings

  /** A column mentioned by a query: bare, or qualified by its table. The
      source tells the two apart by the presence of a `tableName` key. */
  datatype ColumnRef = Bare(column: string) | Qualified(table: string, column: string)

  /** The text shown for one reference. */
  function Render(c: ColumnRef): string
  {
    match c
    case Bare(column) => column
    case Qualified(table, column) => table + "." + column
  }

  /** Renders every reference, one piece per reference, in input order. */
  function RenderAll(refs: seq<ColumnRef>): (pieces: seq<string>)
    ensures |pieces| == |refs|
    ensures forall i :: 0 <= i < |refs| ==> pieces[i] == Render(refs[i])
    decreases |refs|
  {
    if |refs| == 0 then [] else [Render(refs[0])] + RenderAll(refs[1..])
  }

  /** The placeholder shown when a query references no column. */
  const Placeholder: string := "-"

  /** The references joined by `", "`, or the placeholder when there are none. */
  function FormatColumnRefs(refs: seq<ColumnRef>): (s: string)
    ensures refs == [] ==> s == Placeholder
    ensures |refs| == 1 ==> s == Render(refs[0])
  {
    var pieces := RenderAll(refs);
    if |pieces| > 0 then Join(pieces, Comma) else Placeholder
  }

  /** The placeholder comes out exactly for the empty list and for the one
      list whose only reference itself renders as the placeholder. */
  lemma PlaceholderOnlyWhenEmpty(refs: seq<ColumnRef>)
    ensures FormatColumnRefs(refs) == Placeholder <==> refs == [] || refs == [Bare(Placeholder)]
  {
    if |refs| >= 2 {
      var pieces := RenderAll(refs);
      assert Join(pieces, Comma) == pieces[0] + Comma + Join(pieces[1..], Comma);
    } else if |refs| == 1 {
      match refs[0]
      case Bare(column) =>
      case Qualified(table, column) =>
        assert |Render(refs[0])| >= 1 + |column|;
        assert Render(refs[0])[|table|] == '.';
    }
  }

  /** Formatting a concatenation puts one separator between the two halves:
      the output follows input order, with no sorting and no deduplication. */
  lemma FormatAppend(a: seq<ColumnRef>, b: seq<ColumnRef>)
    requires a != [] && b != []
    ensures FormatColumnRefs(a + b) == FormatColumnRefs(a) + Comma + FormatColumnRefs(b)
  {
    var whole, left, right := RenderAll(a + b), RenderAll(a), RenderAll(b);
    forall i | 0 <= i < |whole|
      ensures whole[i] == (left + right)[i]
    {
      if i < |a| {
        assert (a + b)[i] == a[i];
      } else {
        assert (a + b)[i] == b[i - |a|];
      }
    }
    assert whole == left + right;
    JoinAppend(left, right, Comma);
  }

  /** Reads one rendered reference back: text before the first `.` is the
      table, the rest the column; without a `.` it is a bare column. */
  function ParseRef(piece: string): ColumnRef
  {
    var table := Span(piece, {'.'});
    if |table| == |piece| then Bare(piece) else Qualified(table, piece[|table| + 1..])
  }

  function ParseAll(pieces: seq<string>): seq<ColumnRef>
    decreases |pieces|
  {
    if |pieces| == 0 then [] else [ParseRef(pieces[0])] + ParseAll(pieces[1..])
  }

  /** Reads a formatted reference list back into references. */
  function ParseColumnRefs(s: string): seq<ColumnRef>
  {
    if s == Placeholder then [] else ParseAll(Split(s))
  }

  /** Names the rendering keeps apart: no comma anywhere, and no `.` in the
      part that precedes one (the table, or a bare column). */
  predicate WellFormedRef(c: ColumnRef)
  {
    match c
    case Bare(column) => NoComma(column) && '.' !in column
    case Qualified(table, column) => NoComma(table) && NoComma(column) && '.' !in table
  }

  lemma ParseRender(c: ColumnRef)
    requires WellFormedRef(c)
    ensures ParseRef(Render(c)) == c
  {
    match c
    case Bare(column) =>
      SpanOf(column, "", {'.'});
      assert column + "" == column;
    case Qualified(table, column) =>
      SpanOf(table, "." + column, {'.'});
      assert table + "." + column == table + ("." + column);
      assert (table + "." + column)[|table| + 1..] == column;
  }

  lemma {:induction false} ParseAllRenderAll(refs: seq<ColumnRef>)
    requires forall i :: 0 <= i < |refs| ==> WellFormedRef(refs[i])
    ensures ParseAll(RenderAll(refs)) == refs
    decreases |refs|
  {
    if |refs| > 0 {
      ParseRender(refs[0]);
      ParseAllRenderAll(refs[1..]);
      assert RenderAll(refs)[1..] == RenderAll(refs[1..]);
      assert [refs[0]] + refs[1..] == refs;
    }
  }

  /** Round trip: for well-formed names, the references can be read back from
      their rendering, in order, except for the single bare column named like
      the placeholder, which is indistinguishable from the empty list. */
  lemma ParseFormat(refs: seq<ColumnRef>)
    requires forall i :: 0 <= i < |refs| ==> WellFormedRef(refs[i])
    requires refs != [Bare(Placeholder)]
    ensures ParseColumnRefs(FormatColumnRefs(refs)) == refs
  {
    PlaceholderOnlyWhenEmpty(refs);
    if |refs| > 0 {
      var pieces := RenderAll(refs);
      forall i | 0 <= i < |pieces|
        ensures NoComma(pieces[i])
      {
        assert WellFormedRef(refs[i]);
      }
      SplitJoin(pieces);
      ParseAllRenderAll(refs);
    }
  }

  /** The placeholder collision the round trip has to exclude. */
  lemma PlaceholderCollision()
    ensures FormatColumnRefs([Bare(Placeholder)]) == FormatColumnRefs([])
  {
  }

  /** The worked example: a bare and a qualified reference. */
  lemma FormatExample()
    ensures FormatColumnRefs([Bare("id"), Qualified("users", "name")]) == "id, users.name"
  {
  }
}
