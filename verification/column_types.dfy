/** Rendering of one column's inferred type (`stringifyColumnType`), and a
    reader that recovers from the rendering everything the rendering shows. */
module ColumnTypes {
  import opened Wrappers
  import opened Strings

  /** The inferred type of a column, restricted to the fields the renderer
      reads. `enumVals` is the optional list of enum literals; `subtype` is the
      optional element type of a container type. */
  datatype Descriptor = Descriptor(
    ty: string,
    subtype: Option<Descriptor>,
    enumVals: Option<seq<string>>,
    nullable: bool,
    hasDefault: bool)

  /** The qualifiers, in their fixed order: default value first, then nullable. */
  function Props(d: Descriptor): (ps: seq<string>)
    ensures "default value" in ps <==> d.hasDefault
    ensures "nullable" in ps <==> d.nullable
    ensures |ps| == (if d.hasDefault then 1 else 0) + (if d.nullable then 1 else 0)
    ensures |ps| == 2 ==> ps == ["default value", "nullable"]
  {
    (if d.hasDefault then ["default value"] else []) + (if d.nullable then ["nullable"] else [])
  }

  /** The qualifier segment: empty without qualifiers, otherwise the
      qualifiers in parentheses after a space. */
  function PropsString(d: Descriptor): (s: string)
    ensures s == "" <==> !d.hasDefault && !d.nullable
    ensures s != "" ==> s[0] == ' '
  {
    var ps := Props(d);
    if |ps| > 0 then " (" + Join(ps, Comma) + ")" else ""
  }

  /** The four possible qualifier segments; the order of the two qualifiers
      is never reversed. */
  lemma QualifierSegment(d: Descriptor)
    ensures !d.hasDefault && !d.nullable ==> PropsString(d) == ""
    ensures d.hasDefault && !d.nullable ==> PropsString(d) == " (default value)"
    ensures !d.hasDefault && d.nullable ==> PropsString(d) == " (nullable)"
    ensures d.hasDefault && d.nullable ==> PropsString(d) == " (default value, nullable)"
  {
    var ps := Props(d);
    if |ps| == 2 {
      assert ps[1..] == ["nullable"];
      assert Join(ps, Comma) == "default value" + Comma + "nullable";
    }
  }

  /** An enum literal in single quotes. */
  function Quote(v: string): string
  {
    "'" + v + "'"
  }

  /** Quotes every enum literal, in order. */
  function QuoteAll(vals: seq<string>): (qs: seq<string>)
    ensures |qs| == |vals|
    ensures forall i :: 0 <= i < |vals| ==> qs[i] == Quote(vals[i])
    decreases |vals|
  {
    if |vals| == 0 then [] else [Quote(vals[0])] + QuoteAll(vals[1..])
  }

  /** The enum rendering applies only when the type is `enum` AND a literal
      list is present (an empty list counts as present). */
  predicate IsEnumBranch(d: Descriptor)
  {
    d.ty == "enum" && d.enumVals.Some?
  }

  /** The element type in brackets, when there is one. Only the subtype's
      own type name is shown. */
  function SubtypeText(d: Descriptor): string
  {
    if d.subtype.Some? then "[" + d.subtype.value.ty + "]" else ""
  }

  /** The display string of a column type. */
  function StringifyColumnType(d: Descriptor): (s: string)
    ensures IsEnumBranch(d) ==> "enum" <= s && s[|s| - 1] == ']'
    ensures !IsEnumBranch(d) ==> d.ty <= s
  {
    if IsEnumBranch(d) then
      "enum" + PropsString(d) + " [" + Join(QuoteAll(d.enumVals.value), Comma) + "]"
    else
      d.ty + SubtypeText(d) + PropsString(d)
  }

  /** What a rendering shows of a descriptor: the two qualifiers, and either
      the enum literals, or the type name with the subtype's type name. */
  datatype Shape =
    | EnumShape(hasDefault: bool, nullable: bool, values: seq<string>)
    | PlainShape(ty: string, subtype: Option<string>, hasDefault: bool, nullable: bool)

  function Visible(d: Descriptor): Shape
  {
    if IsEnumBranch(d) then EnumShape(d.hasDefault, d.nullable, d.enumVals.value)
    else PlainShape(d.ty, if d.subtype.Some? then Some(d.subtype.value.ty) else None, d.hasDefault, d.nullable)
  }

  /** Nothing but the visible part of a descriptor affects its rendering: not
      the subtype's own qualifiers, enum list or subtype, and not an enum
      list on a type other than `enum`. */
  lemma OnlyVisibleMatters(d1: Descriptor, d2: Descriptor)
    requires Visible(d1) == Visible(d2)
    ensures StringifyColumnType(d1) == StringifyColumnType(d2)
  {
    if IsEnumBranch(d1) {
      assert d1.hasDefault == d2.hasDefault && d1.nullable == d2.nullable;
    }
  }

  // ---------------------------------------------------------------------
  // Reading a rendering back

  const DefaultAndNullable: string := " (default value, nullable)"
  const DefaultOnly: string := " (default value)"
  const NullableOnly: string := " (nullable)"

  /** The qualifiers read from the front of `s`, and what follows them. */
  datatype PropsRead = PropsRead(hasDefault: bool, nullable: bool, rest: string)

  function ParseProps(s: string): PropsRead
  {
    if DefaultAndNullable <= s then PropsRead(true, true, s[|DefaultAndNullable|..])
    else if DefaultOnly <= s then PropsRead(true, false, s[|DefaultOnly|..])
    else if NullableOnly <= s then PropsRead(false, true, s[|NullableOnly|..])
    else PropsRead(false, false, s)
  }

  /** Reads a non-empty list of quoted literals separated by `", "`. */
  function ParseItems(s: string): Option<seq<string>>
    decreases |s|
  {
    if |s| == 0 || s[0] != '\'' then None
    else
      var v := Span(s[1..], {'\''});
      var after := s[1 + |v|..];
      if |after| == 0 then None
      else
        var tail := after[1..];
        if |tail| == 0 then Some([v])
        else if Comma <= tail then
          match ParseItems(tail[2..])
          case Some(vs) => Some([v] + vs)
          case None => None
        else None
  }

  /** Reads the body between the enum brackets; an empty body is no literal. */
  function ParseQuoted(s: string): Option<seq<string>>
  {
    if |s| == 0 then Some([]) else ParseItems(s)
  }

  /** Characters that end a type name in a rendering. */
  const TypeStops: set<char> := {' ', '['}

  /** Reads a rendering back into the shape it shows: the type name runs up
      to the first space or `[`; what follows is read by `ParseAfterType`. */
  function ParseColumnType(s: string): Option<Shape>
  {
    var ty := Span(s, TypeStops);
    ParseAfterType(ty, s[|ty|..])
  }

  /** A `[` right after the type name opens a subtype; anything else is the
      qualifier segment and possibly an enum literal list. */
  function ParseAfterType(ty: string, rest: string): Option<Shape>
  {
    if "[" <= rest then ParseSubtype(ty, rest[1..]) else ParseTail(ty, ParseProps(rest))
  }

  /** Reads `st]` followed by the qualifier segment. */
  function ParseSubtype(ty: string, s: string): Option<Shape>
  {
    var st := Span(s, {']'});
    var after := s[|st|..];
    if |after| == 0 then None
    else
      var props := ParseProps(after[1..]);
      if |props.rest| == 0 then Some(PlainShape(ty, Some(st), props.hasDefault, props.nullable))
      else None
  }

  /** After the qualifiers: either nothing, or the enum literal list in
      brackets when the type name is `enum`. */
  function ParseTail(ty: string, props: PropsRead): Option<Shape>
  {
    var tail := props.rest;
    if |tail| == 0 then Some(PlainShape(ty, None, props.hasDefault, props.nullable))
    else if ty == "enum" && |tail| >= 3 && tail[..2] == " [" && tail[|tail| - 1] == ']' then
      match ParseQuoted(tail[2..|tail| - 1])
      case Some(vals) => Some(EnumShape(props.hasDefault, props.nullable, vals))
      case None => None
    else None
  }

  /** Descriptors whose names the rendering keeps apart: enum literals without
      a single quote; a type name without a space or `[`; a subtype name
      without `]`. */
  predicate WellFormed(d: Descriptor)
  {
    if IsEnumBranch(d) then
      forall i :: 0 <= i < |d.enumVals.value| ==> '\'' !in d.enumVals.value[i]
    else
      ' ' !in d.ty && '[' !in d.ty && (d.subtype.Some? ==> ']' !in d.subtype.value.ty)
  }

  /** `a` is not a prefix of `s` when they differ at position `k`. */
  lemma NotPrefixAt(a: string, s: string, k: nat)
    requires k < |a| && k < |s| && a[k] != s[k]
    ensures !(a <= s)
  {
  }

  /** What may follow the qualifier segment in a rendering: nothing, or the
      opening of the enum literal list. */
  predicate FollowsProps(x: string)
  {
    x == "" || (|x| >= 2 && x[0] == ' ' && x[1] == '[')
  }

  lemma ReadDefaultAndNullable(x: string)
    ensures ParseProps(DefaultAndNullable + x) == PropsRead(true, true, x)
  {
    var s := DefaultAndNullable + x;
    assert s[..|DefaultAndNullable|] == DefaultAndNullable;
    assert s[|DefaultAndNullable|..] == x;
  }

  lemma ReadDefaultOnly(x: string)
    requires FollowsProps(x)
    ensures ParseProps(DefaultOnly + x) == PropsRead(true, false, x)
  {
    var s := DefaultOnly + x;
    NotPrefixAt(DefaultAndNullable, s, 15);
    assert s[..|DefaultOnly|] == DefaultOnly;
    assert s[|DefaultOnly|..] == x;
  }

  lemma ReadNullableOnly(x: string)
    requires FollowsProps(x)
    ensures ParseProps(NullableOnly + x) == PropsRead(false, true, x)
  {
    var s := NullableOnly + x;
    NotPrefixAt(DefaultAndNullable, s, 2);
    NotPrefixAt(DefaultOnly, s, 2);
    assert s[..|NullableOnly|] == NullableOnly;
    assert s[|NullableOnly|..] == x;
  }

  lemma ReadNoProps(x: string)
    requires FollowsProps(x)
    ensures ParseProps(x) == PropsRead(false, false, x)
  {
    if x != "" {
      NotPrefixAt(DefaultAndNullable, x, 1);
      NotPrefixAt(DefaultOnly, x, 1);
      NotPrefixAt(NullableOnly, x, 1);
    }
  }

  /** The qualifier segment reads back from the front of anything that may
      follow it. */
  lemma ParsePropsString(d: Descriptor, x: string)
    requires FollowsProps(x)
    ensures ParseProps(PropsString(d) + x) == PropsRead(d.hasDefault, d.nullable, x)
  {
    QualifierSegment(d);
    if d.hasDefault && d.nullable {
      ReadDefaultAndNullable(x);
    } else if d.hasDefault {
      ReadDefaultOnly(x);
    } else if d.nullable {
      ReadNullableOnly(x);
    } else {
      ReadNoProps(x);
      assert PropsString(d) + x == x;
    }
  }

  /** One quoted literal at the front of `x` reads back as that literal. */
  lemma QuotedHead(v: string, x: string)
    requires '\'' !in v
    ensures var s := Quote(v) + x;
      && |s| > 1 + |v|
      && s[0] == '\''
      && Span(s[1..], {'\''}) == v
      && s[1 + |v|..] == "'" + x
  {
    var s := Quote(v) + x;
    assert s[1..] == v + ("'" + x);
    forall i | 0 <= i < |v|
      ensures v[i] !in {'\''}
    {
      assert v[i] in v;
    }
    SpanOf(v, "'" + x, {'\''});
  }

  lemma ReadLastItem(v: string)
    requires '\'' !in v
    ensures ParseItems(Quote(v)) == Some([v])
  {
    QuotedHead(v, "");
    assert Quote(v) + "" == Quote(v);
  }

  lemma ReadItem(v: string, y: string, vs: seq<string>)
    requires '\'' !in v
    requires ParseItems(y) == Some(vs)
    ensures ParseItems(Quote(v) + (Comma + y)) == Some([v] + vs)
  {
    QuotedHead(v, Comma + y);
    assert (Comma + y)[2..] == y;
  }

  /** A non-empty list of quote-free literals reads back from its rendering. */
  lemma {:induction false} ParseItemsJoin(vals: seq<string>)
    requires |vals| >= 1
    requires forall i :: 0 <= i < |vals| ==> '\'' !in vals[i]
    ensures ParseItems(Join(QuoteAll(vals), Comma)) == Some(vals)
    decreases |vals|
  {
    var v := vals[0];
    var qs := QuoteAll(vals);
    if |vals| == 1 {
      assert qs == [Quote(v)];
      ReadLastItem(v);
      assert vals == [v];
    } else {
      var tail := Join(QuoteAll(vals[1..]), Comma);
      assert qs[1..] == QuoteAll(vals[1..]);
      assert Join(qs, Comma) == Quote(v) + (Comma + tail);
      ParseItemsJoin(vals[1..]);
      ReadItem(v, tail, vals[1..]);
      assert [v] + vals[1..] == vals;
    }
  }

  lemma ParseQuotedJoin(vals: seq<string>)
    requires forall i :: 0 <= i < |vals| ==> '\'' !in vals[i]
    ensures ParseQuoted(Join(QuoteAll(vals), Comma)) == Some(vals)
  {
    if |vals| > 0 {
      var qs := QuoteAll(vals);
      JoinHead(qs, Comma);
      assert Join(qs, Comma)[0] == qs[0][0];
      ParseItemsJoin(vals);
    }
  }

  /** The type name is read up to the first space or `[`. */
  lemma ReadTypeName(ty: string, rest: string)
    requires ' ' !in ty && '[' !in ty
    requires rest == [] || rest[0] in TypeStops
    ensures ParseColumnType(ty + rest) == ParseAfterType(ty, rest)
  {
    forall i | 0 <= i < |ty|
      ensures ty[i] !in TypeStops
    {
      assert ty[i] in ty;
    }
    SpanOf(ty, rest, TypeStops);
    assert (ty + rest)[|ty|..] == rest;
  }

  lemma ReadNoBracket(ty: string, rest: string)
    requires rest == [] || rest[0] == ' '
    ensures ParseAfterType(ty, rest) == ParseTail(ty, ParseProps(rest))
  {
    if rest != [] {
      NotPrefixAt("[", rest, 0);
    }
  }

  lemma ReadBracket(ty: string, inner: string)
    ensures ParseAfterType(ty, "[" + inner) == ParseSubtype(ty, inner)
  {
    assert ("[" + inner)[..1] == "[";
    assert ("[" + inner)[1..] == inner;
  }

  /** `st]` and a qualifier segment read back as a subtype. */
  lemma ReadSubtype(ty: string, st: string, p: string, props: PropsRead)
    requires ']' !in st
    requires ParseProps(p) == props && props.rest == ""
    ensures ParseSubtype(ty, st + ("]" + p)) == Some(PlainShape(ty, Some(st), props.hasDefault, props.nullable))
  {
    forall i | 0 <= i < |st|
      ensures st[i] !in {']'}
    {
      assert st[i] in st;
    }
    SpanOf(st, "]" + p, {']'});
    assert (st + ("]" + p))[|st|..] == "]" + p;
    assert ("]" + p)[1..] == p;
  }

  /** The bracketed literal list after the qualifiers reads back. */
  lemma EnumTail(props: PropsRead, body: string, vals: seq<string>)
    requires props.rest == " [" + body + "]"
    requires ParseQuoted(body) == Some(vals)
    ensures ParseTail("enum", props) == Some(EnumShape(props.hasDefault, props.nullable, vals))
  {
    var x := props.rest;
    assert x[..2] == " [";
    assert x[2..|x| - 1] == body;
  }

  /** `enum`, a qualifier segment and a bracketed literal list read back as
      an enum shape. */
  lemma ReadEnum(p: string, body: string, props: PropsRead, vals: seq<string>)
    requires p == "" || p[0] == ' '
    requires ParseProps(p + (" [" + body + "]")) == props && props.rest == " [" + body + "]"
    requires ParseQuoted(body) == Some(vals)
    ensures ParseColumnType("enum" + p + " [" + body + "]")
         == Some(EnumShape(props.hasDefault, props.nullable, vals))
  {
    var x := " [" + body + "]";
    assert "enum" + p + " [" + body + "]" == "enum" + (p + x);
    assert (p + x)[0] == ' ';
    ReadTypeName("enum", p + x);
    ReadNoBracket("enum", p + x);
    EnumTail(props, body, vals);
  }

  lemma ParseEnumRendering(d: Descriptor)
    requires IsEnumBranch(d) && WellFormed(d)
    ensures ParseColumnType(StringifyColumnType(d)) == Some(Visible(d))
  {
    var body := Join(QuoteAll(d.enumVals.value), Comma);
    var x := " [" + body + "]";
    ParsePropsString(d, x);
    ParseQuotedJoin(d.enumVals.value);
    ReadEnum(PropsString(d), body, PropsRead(d.hasDefault, d.nullable, x), d.enumVals.value);
  }

  /** The qualifier segment alone reads back with nothing left over. */
  lemma PropsAlone(d: Descriptor)
    ensures ParseProps(PropsString(d)) == PropsRead(d.hasDefault, d.nullable, "")
  {
    ParsePropsString(d, "");
    assert PropsString(d) + "" == PropsString(d);
  }

  /** `ty[st]` and a qualifier segment read back as a type with a subtype. */
  lemma ReadTypeWithSubtype(ty: string, st: string, p: string, props: PropsRead)
    requires ' ' !in ty && '[' !in ty && ']' !in st
    requires ParseProps(p) == props && props.rest == ""
    ensures ParseColumnType(ty + ("[" + st + "]") + p)
         == Some(PlainShape(ty, Some(st), props.hasDefault, props.nullable))
  {
    var inner := st + ("]" + p);
    assert ty + ("[" + st + "]") + p == ty + ("[" + inner);
    ReadTypeName(ty, "[" + inner);
    ReadBracket(ty, inner);
    ReadSubtype(ty, st, p, props);
  }

  /** A type name and a qualifier segment read back as a type without a
      subtype. */
  lemma ReadTypeAlone(ty: string, p: string, props: PropsRead)
    requires ' ' !in ty && '[' !in ty
    requires p == "" || p[0] == ' '
    requires ParseProps(p) == props && props.rest == ""
    ensures ParseColumnType(ty + "" + p) == Some(PlainShape(ty, None, props.hasDefault, props.nullable))
  {
    assert ty + "" + p == ty + p;
    ReadTypeName(ty, p);
    ReadNoBracket(ty, p);
  }

  lemma ParseSubtypeRendering(d: Descriptor)
    requires !IsEnumBranch(d) && WellFormed(d) && d.subtype.Some?
    ensures ParseColumnType(StringifyColumnType(d)) == Some(Visible(d))
  {
    PropsAlone(d);
    ReadTypeWithSubtype(d.ty, d.subtype.value.ty, PropsString(d), PropsRead(d.hasDefault, d.nullable, ""));
  }

  lemma ParseBareRendering(d: Descriptor)
    requires !IsEnumBranch(d) && WellFormed(d) && d.subtype.None?
    ensures ParseColumnType(StringifyColumnType(d)) == Some(Visible(d))
  {
    PropsAlone(d);
    ReadTypeAlone(d.ty, PropsString(d), PropsRead(d.hasDefault, d.nullable, ""));
  }

  /** Round trip: a well-formed descriptor's rendering reads back as exactly
      its visible part. So renderings of well-formed descriptors differ
      whenever what they show differs. */
  lemma ParseStringify(d: Descriptor)
    requires WellFormed(d)
    ensures ParseColumnType(StringifyColumnType(d)) == Some(Visible(d))
  {
    if IsEnumBranch(d) {
      ParseEnumRendering(d);
    } else if d.subtype.Some? {
      ParseSubtypeRendering(d);
    } else {
      ParseBareRendering(d);
    }
  }

  /** Well-formed descriptors with the same rendering show the same thing. */
  lemma StringifyInjective(d1: Descriptor, d2: Descriptor)
    requires WellFormed(d1) && WellFormed(d2)
    requires StringifyColumnType(d1) == StringifyColumnType(d2)
    ensures Visible(d1) == Visible(d2)
  {
    ParseStringify(d1);
    ParseStringify(d2);
  }

  /** An enum descriptor without a literal list falls through to the general
      rendering: no bracketed literal list, just the type, the element type
      in brackets when there is one, and the qualifiers. */
  lemma EnumWithoutList(sub: Option<Descriptor>, nullable: bool, hasDefault: bool)
    ensures var d := Descriptor("enum", sub, None, nullable, hasDefault);
      StringifyColumnType(d) == "enum" + SubtypeText(d) + PropsString(d)
  {
  }

  /** Worked example: an enum with two literals. */
  lemma EnumExample()
    ensures StringifyColumnType(Descriptor("enum", None, Some(["a", "b"]), false, false)) == "enum ['a', 'b']"
  {
    var d := Descriptor("enum", None, Some(["a", "b"]), false, false);
    QualifierSegment(d);
    var qs := QuoteAll(["a", "b"]);
    assert qs == ["'a'", "'b'"] by {
      assert qs[0] == Quote("a") == "'a'";
      assert qs[1] == Quote("b") == "'b'";
    }
    assert Join(qs, Comma) == "'a', 'b'" by {
      JoinCons("'a'", ["'b'"], Comma);
      assert ["'a'", "'b'"] == ["'a'"] + ["'b'"];
    }
  }

  /** Worked example: an enum whose literal list is present but empty. */
  lemma EmptyEnumExample()
    ensures StringifyColumnType(Descriptor("enum", None, Some([]), false, false)) == "enum []"
  {
  }

  /** Worked example: a nullable container type with an element type. */
  lemma SubtypeExample()
    ensures StringifyColumnType(
              Descriptor("integer", Some(Descriptor("string", None, None, false, false)), None, true, false))
         == "integer[string] (nullable)"
  {
  }
}
