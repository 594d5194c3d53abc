/** String building blocks shared by the formatters: joining with a separator,
    its inverse for the `", "` separator, and the longest prefix free of a set
    of stop characters. */
module Strings {

  /** The `", "` separator every list in the formatted output uses. */
  const Comma: string := ", "

  /** `Array.prototype.join`: the parts in order, with `sep` between
      consecutive parts and nowhere else; the empty list joins to `""`. */
  function Join(parts: seq<string>, sep: string): string
  {
    if |parts| == 0 then ""
    else if |parts| == 1 then parts[0]
    else parts[0] + sep + Join(parts[1..], sep)
  }

  /** Splits `s` at every occurrence of `", "`, scanning left to right.
      Joining the pieces again gives back `s`, so no character is lost. */
  function Split(s: string): (parts: seq<string>)
    ensures |parts| >= 1
    ensures Join(parts, Comma) == s
    decreases |s|
  {
    if |s| < 2 then [s]
    else if s[0] == ',' && s[1] == ' ' then
      var rest := Split(s[2..]);
      JoinCons("", rest, Comma);
      assert s == Comma + s[2..];
      [""] + rest
    else
      var rest := Split(s[1..]);
      JoinGrowFirst(s[0], rest, Comma);
      assert s == [s[0]] + s[1..];
      [[s[0]] + rest[0]] + rest[1..]
  }

  /** Joining a list with a first piece in front adds that piece and one
      separator. */
  lemma JoinCons(x: string, rest: seq<string>, sep: string)
    requires |rest| >= 1
    ensures Join([x] + rest, sep) == x + sep + Join(rest, sep)
  {
    assert ([x] + rest)[1..] == rest;
  }

  /** Putting a character in front of the first piece puts it in front of
      the joined string. */
  lemma JoinGrowFirst(c: char, parts: seq<string>, sep: string)
    requires |parts| >= 1
    ensures Join([[c] + parts[0]] + parts[1..], sep) == [c] + Join(parts, sep)
  {
    if |parts| > 1 {
      JoinCons([c] + parts[0], parts[1..], sep);
      JoinCons(parts[0], parts[1..], sep);
      assert [parts[0]] + parts[1..] == parts;
    }
  }

  /** No separator comma appears in `s`. */
  predicate NoComma(s: string)
  {
    ',' !in s
  }

  /** The longest prefix of `s` containing none of the `stops`. */
  function Span(s: string, stops: set<char>): (p: string)
    ensures p <= s
    ensures forall i :: 0 <= i < |p| ==> p[i] !in stops
    ensures |p| < |s| ==> s[|p|] in stops
    decreases |s|
  {
    if |s| == 0 || s[0] in stops then ""
    else [s[0]] + Span(s[1..], stops)
  }

  /** A stop-free `p` followed by a stop character (or by nothing) is exactly
      what `Span` takes. */
  lemma {:induction false} SpanOf(p: string, q: string, stops: set<char>)
    requires forall i :: 0 <= i < |p| ==> p[i] !in stops
    requires q == [] || q[0] in stops
    ensures Span(p + q, stops) == p
    decreases |p|
  {
    if |p| > 0 {
      assert (p + q)[0] == p[0];
      assert (p + q)[1..] == p[1..] + q;
      SpanOf(p[1..], q, stops);
      assert [p[0]] + p[1..] == p;
    }
  }

  /** Splitting a comma-free piece followed by the separator yields that
      piece first, then the pieces of what follows. */
  lemma {:induction false} SplitPrefix(p: string, tail: string)
    requires NoComma(p)
    ensures Split(p + Comma + tail) == [p] + Split(tail)
    decreases |p|
  {
    var s := p + Comma + tail;
    if |p| == 0 {
      assert s[2..] == tail;
    } else {
      assert s[0] == p[0];
      assert s[1..] == p[1..] + Comma + tail;
      SplitPrefix(p[1..], tail);
      assert [p[0]] + p[1..] == p;
    }
  }

  /** A comma-free string is a single piece. */
  lemma {:induction false} SplitWhole(p: string)
    requires NoComma(p)
    ensures Split(p) == [p]
    decreases |p|
  {
    if |p| >= 2 {
      assert p[0] != ',';
      SplitWhole(p[1..]);
      assert [p[0]] + p[1..] == p;
    }
  }

  /** `Split` undoes `Join` with `", "` for any non-empty list of comma-free
      pieces: the pieces come back in order, none merged or dropped. */
  lemma {:induction false} SplitJoin(parts: seq<string>)
    requires |parts| >= 1
    requires forall i :: 0 <= i < |parts| ==> NoComma(parts[i])
    ensures Split(Join(parts, Comma)) == parts
    decreases |parts|
  {
    if |parts| == 1 {
      SplitWhole(parts[0]);
    } else {
      SplitPrefix(parts[0], Join(parts[1..], Comma));
      SplitJoin(parts[1..]);
      assert [parts[0]] + parts[1..] == parts;
    }
  }

  /** Joining a concatenation of two non-empty lists puts one separator at the
      seam: nothing is reordered, merged or dropped. */
  lemma {:induction false} JoinAppend(a: seq<string>, b: seq<string>, sep: string)
    requires |a| >= 1 && |b| >= 1
    ensures Join(a + b, sep) == Join(a, sep) + sep + Join(b, sep)
    decreases |a|
  {
    if |a| == 1 {
      assert (a + b)[1..] == b;
    } else {
      assert (a + b)[1..] == a[1..] + b;
      JoinAppend(a[1..], b, sep);
    }
  }

  /** The first piece opens the joined string. */
  lemma JoinHead(parts: seq<string>, sep: string)
    requires |parts| >= 1
    ensures parts[0] <= Join(parts, sep)
  {
    if |parts| > 1 {
      assert Join(parts, sep) == parts[0] + (sep + Join(parts[1..], sep));
    }
  }
}
