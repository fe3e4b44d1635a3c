/**
 * The string helpers of Functions.Strings.swift that fix the text of
 * `ErrorIO.localizedDescription`: splitting into lines, indenting, and
 * describing an array. `splitr` and `joinc` are split-on-a-character and
 * join-with-a-separator.
 */
module Strings {
  import opened Functional

  /** The four spaces `indent` puts before each line. */
  const Spaces: string := "    "

  /** A piece of text that is one non-empty line. */
  predicate SingleLine(s: string)
  {
    s != "" && '\n' !in s
  }

  /** `joinc(separator)`: the pieces with `separator` between each consecutive two. */
  function Join(separator: string, pieces: seq<string>): string
    decreases |pieces|
  {
    if |pieces| == 0 then ""
    else if |pieces| == 1 then pieces[0]
    else pieces[0] + separator + Join(separator, pieces[1..])
  }

  /** The pieces of `s` between occurrences of `sep`, empty ones included. */
  function SplitAll(s: string, sep: char): (pieces: seq<string>)
    ensures |pieces| >= 1
    decreases |s|
  {
    if s == "" then [""]
    else
      var rest := SplitAll(s[1..], sep);
      if s[0] == sep then [""] + rest else [[s[0]] + rest[0]] + rest[1..]
  }

  /** The non-empty pieces, in order. */
  function NonEmpty(pieces: seq<string>): seq<string>
    decreases |pieces|
  {
    if pieces == [] then []
    else (if pieces[0] == "" then [] else [pieces[0]]) + NonEmpty(pieces[1..])
  }

  /**
   * Swift 1.x `split(s) { $0 == sep }` (and `splitr`): `allowEmptySlices`
   * defaults to false, so empty pieces are dropped.
   */
  function Split(s: string, sep: char): seq<string>
  {
    NonEmpty(SplitAll(s, sep))
  }

  /** `lines`: the non-empty lines of `str`. */
  function Lines(str: string): seq<string>
  {
    Split(str, '\n')
  }

  /** All the pieces, one after another. */
  function Concat(pieces: seq<string>): string
    decreases |pieces|
  {
    if pieces == [] then "" else pieces[0] + Concat(pieces[1..])
  }

  /** The step of `indent` that prefixes one line. */
  function IndentLine(line: string): string
  {
    Spaces + line
  }

  /** `indent`: each line of `str` prefixed with four spaces, rejoined with newlines. */
  function Indent(str: string): string
  {
    Join("\n", Mapr(IndentLine, Split(str, '\n')))
  }

  /** `describe(array, formatElement)`: a bracketed list, one indented element per entry. */
  function Describe<T>(items: seq<T>, formatElement: T -> string): string
  {
    "[\n" + Join(",\n", Mapr(Compose(formatElement, Indent), items)) + "\n]"
  }

  /**
   * `describe(array)`: `describe(array, stringify)`. For an array of strings
   * `stringify` is the string itself; for other element types it is Swift's
   * reflection, which is not part of this model.
   */
  function DescribeStrings(items: seq<string>): string
  {
    Describe(items, Id)
  }

  /**
   * An array of one-line strings is described as "[", then each string
   * indented on its own line with a comma after all but the last, then "]".
   */
  lemma DescribeStringsLines(items: seq<string>)
    requires forall x :: x in items ==> SingleLine(x)
    ensures Lines(DescribeStrings(items)) == ["["] + Commas(Mapr(IndentLine, items)) + ["]"]
    ensures |Lines(DescribeStrings(items))| == |items| + 2
  {
    DescribeLines(items, Id);
    assert Mapr(IndentedFormat(Id), items) == Mapr(IndentLine, items) by {
      forall i | 0 <= i < |items|
        ensures Mapr(IndentedFormat(Id), items)[i] == Mapr(IndentLine, items)[i]
      {
      }
    }
  }

  /** `substringFromIndex(index)`: `str` without its first `index` characters. */
  function SubstringFromIndex(index: nat, str: string): (r: string)
    requires index <= |str|
    ensures |r| == |str| - index
    ensures str[..index] + r == str
  {
    str[index..]
  }

  /** `substringToIndex(index)`: the first `index` characters of `str`. */
  function SubstringToIndex(index: nat, str: string): (r: string)
    requires index <= |str|
    ensures |r| == index
    ensures r + str[index..] == str
  {
    str[..index]
  }

  /** The two substring helpers cut `str` in two at the same place. */
  lemma SubstringsRejoin(index: nat, str: string)
    requires index <= |str|
    ensures SubstringToIndex(index, str) + SubstringFromIndex(index, str) == str
  {
  }

  // ---------------------------------------------------------------------------
  // Splitting and joining
  // ---------------------------------------------------------------------------

  /** No piece of `SplitAll` contains the separator. */
  lemma {:induction false} SplitAllPiecesFree(s: string, sep: char)
    ensures forall piece :: piece in SplitAll(s, sep) ==> sep !in piece
    decreases |s|
  {
    if s != "" {
      SplitAllPiecesFree(s[1..], sep);
      var rest := SplitAll(s[1..], sep);
      if s[0] != sep {
        assert rest[0] in rest;
        forall piece | piece in rest[1..] ensures piece in rest {
        }
      }
    }
  }

  /** Joining the pieces back with the separator gives `s` again. */
  lemma {:induction false} JoinSplitAll(s: string, sep: char)
    ensures Join([sep], SplitAll(s, sep)) == s
    decreases |s|
  {
    if s != "" {
      JoinSplitAll(s[1..], sep);
      assert s == [s[0]] + s[1..];
      if s[0] == sep {
        JoinSplitAllSeparator(s[1..], sep);
      } else {
        JoinSplitAllOther(s[0], s[1..], sep);
      }
    }
  }

  /** `JoinSplitAll` for text that starts with the separator. */
  lemma JoinSplitAllSeparator(t: string, sep: char)
    requires Join([sep], SplitAll(t, sep)) == t
    ensures Join([sep], SplitAll([sep] + t, sep)) == [sep] + t
  {
    assert ([sep] + t)[1..] == t;
    var rest := SplitAll(t, sep);
    assert SplitAll([sep] + t, sep) == [""] + rest;
    JoinConsAny([sep], "", rest);
  }

  /** `JoinSplitAll` for text that starts with another character. */
  lemma JoinSplitAllOther(c: char, t: string, sep: char)
    requires c != sep
    requires Join([sep], SplitAll(t, sep)) == t
    ensures Join([sep], SplitAll([c] + t, sep)) == [c] + t
  {
    SplitAllOther(c, t, sep);
    JoinExtendFirst([sep], [c], SplitAll(t, sep));
  }

  /** A character other than the separator joins the first piece. */
  lemma SplitAllOther(c: char, t: string, sep: char)
    requires c != sep
    ensures SplitAll([c] + t, sep) == [[c] + SplitAll(t, sep)[0]] + SplitAll(t, sep)[1..]
  {
    assert ([c] + t)[1..] == t;
  }

  /** Extending the first piece extends the joined text at its front. */
  lemma JoinExtendFirst(separator: string, front: string, pieces: seq<string>)
    requires |pieces| >= 1
    ensures Join(separator, [front + pieces[0]] + pieces[1..]) == front + Join(separator, pieces)
  {
    var tail := pieces[1..];
    assert pieces == [pieces[0]] + tail;
    JoinConsAny(separator, front + pieces[0], tail);
    JoinConsAny(separator, pieces[0], tail);
    if tail != [] {
      var j := Join(separator, tail);
      assert front + pieces[0] + separator + j == front + (pieces[0] + separator + j);
    }
  }

  lemma JoinCons(separator: string, first: string, rest: seq<string>)
    requires |rest| >= 1
    ensures Join(separator, [first] + rest) == first + separator + Join(separator, rest)
  {
    assert ([first] + rest)[1..] == rest;
  }

  /** `JoinCons` with the one-piece case included. */
  lemma JoinConsAny(separator: string, first: string, rest: seq<string>)
    ensures Join(separator, [first] + rest) == if rest == [] then first else first + separator + Join(separator, rest)
  {
    if rest != [] {
      JoinCons(separator, first, rest);
    }
  }

  lemma {:induction false} JoinSnoc(separator: string, pieces: seq<string>, last: string)
    requires |pieces| >= 1
    ensures Join(separator, pieces + [last]) == Join(separator, pieces) + separator + last
    decreases |pieces|
  {
    if |pieces| == 1 {
      JoinCons(separator, pieces[0], [last]);
      assert pieces + [last] == [pieces[0]] + [last];
    } else {
      JoinSnoc(separator, pieces[1..], last);
      assert pieces + [last] == [pieces[0]] + (pieces[1..] + [last]);
      assert pieces == [pieces[0]] + pieces[1..];
      JoinCons(separator, pieces[0], pieces[1..] + [last]);
      JoinCons(separator, pieces[0], pieces[1..]);
    }
  }

  /** Text before the first separator joins the first piece. */
  lemma {:induction false} SplitAllPrefix(p: string, t: string, sep: char)
    requires sep !in p
    ensures SplitAll(p + t, sep) == [p + SplitAll(t, sep)[0]] + SplitAll(t, sep)[1..]
    decreases |p|
  {
    var q := SplitAll(t, sep);
    if p != "" {
      SplitAllPrefix(p[1..], t, sep);
      assert (p + t)[1..] == p[1..] + t;
      assert (p + t)[0] == p[0];
      assert [p[0]] + (p[1..] + q[0]) == p + q[0];
    } else {
      assert p + t == t;
      assert p + q[0] == q[0];
      assert [q[0]] + q[1..] == q;
    }
  }

  /** Splitting joined separator-free pieces gives the pieces back, empty ones included. */
  lemma {:induction false} SplitAllJoin(pieces: seq<string>, sep: char)
    requires |pieces| >= 1
    requires forall piece :: piece in pieces ==> sep !in piece
    ensures SplitAll(Join([sep], pieces), sep) == pieces
    decreases |pieces|
  {
    var p := pieces[0];
    assert p in pieces;
    if |pieces| == 1 {
      SplitAllPrefix(p, "", sep);
      assert p + "" == p;
    } else {
      var rest := pieces[1..];
      assert forall piece :: piece in rest ==> piece in pieces;
      SplitAllJoin(rest, sep);
      var j := Join([sep], rest);
      JoinCons([sep], p, rest);
      assert pieces == [p] + rest;
      var u := [sep] + j;
      assert Join([sep], pieces) == p + u;
      assert u[0] == sep && u[1..] == j;
      assert SplitAll(u, sep) == [""] + rest;
      SplitAllPrefix(p, u, sep);
      assert p + "" == p;
    }
  }

  lemma {:induction false} NonEmptyKeepsNonEmpty(pieces: seq<string>)
    requires forall piece :: piece in pieces ==> piece != ""
    ensures NonEmpty(pieces) == pieces
    decreases |pieces|
  {
    if pieces != [] {
      assert pieces[0] in pieces;
      assert forall piece :: piece in pieces[1..] ==> piece in pieces;
      NonEmptyKeepsNonEmpty(pieces[1..]);
      assert pieces == [pieces[0]] + pieces[1..];
    }
  }

  lemma {:induction false} NonEmptySound(pieces: seq<string>)
    ensures forall piece :: piece in NonEmpty(pieces) ==> piece in pieces && piece != ""
    decreases |pieces|
  {
    if pieces != [] {
      NonEmptySound(pieces[1..]);
      assert forall piece :: piece in pieces[1..] ==> piece in pieces;
    }
  }

  /** Dropping empty pieces does not change their concatenation. */
  lemma {:induction false} ConcatNonEmpty(pieces: seq<string>)
    ensures Concat(NonEmpty(pieces)) == Concat(pieces)
    decreases |pieces|
  {
    if pieces != [] {
      ConcatNonEmpty(pieces[1..]);
      ConcatAppend(if pieces[0] == "" then [] else [pieces[0]], NonEmpty(pieces[1..]));
      if pieces[0] == "" {
        assert Concat([]) == "";
      } else {
        assert [pieces[0]][1..] == [];
      }
    }
  }

  lemma {:induction false} ConcatAppend(a: seq<string>, b: seq<string>)
    ensures Concat(a + b) == Concat(a) + Concat(b)
    decreases |a|
  {
    if a == [] {
      assert a + b == b;
    } else {
      ConcatAppend(a[1..], b);
      assert (a + b)[1..] == a[1..] + b;
    }
  }

  /** Whether a character is something other than a newline. */
  function NotNewline(c: char): bool
  {
    c != '\n'
  }

  /** The pieces of `SplitAll` hold exactly the text of `s` without its separators, in order. */
  lemma {:induction false} ConcatSplitAll(s: string)
    ensures Concat(SplitAll(s, '\n')) == Filter(NotNewline, s)
    decreases |s|
  {
    if s != "" {
      ConcatSplitAll(s[1..]);
      var rest := SplitAll(s[1..], '\n');
      FilterAppend(NotNewline, [s[0]], s[1..]);
      assert [s[0]] + s[1..] == s;
      assert [s[0]][..0] == [];
      if s[0] == '\n' {
        assert ([""] + rest)[1..] == rest;
      } else {
        assert ([[s[0]] + rest[0]] + rest[1..])[1..] == rest[1..];
        assert rest == [rest[0]] + rest[1..];
      }
    }
  }

  // ---------------------------------------------------------------------------
  // Lines
  // ---------------------------------------------------------------------------

  /** Every line is non-empty and holds no newline; together they are the text of `str` in order. */
  lemma LinesSound(str: string)
    ensures forall line :: line in Lines(str) ==> SingleLine(line)
    ensures Concat(Lines(str)) == Filter(NotNewline, str)
  {
    SplitAllPiecesFree(str, '\n');
    NonEmptySound(SplitAll(str, '\n'));
    ConcatNonEmpty(SplitAll(str, '\n'));
    ConcatSplitAll(str);
  }

  /** Joining single lines with newlines and splitting again gives the lines back. */
  lemma LinesOfJoin(lines: seq<string>)
    requires forall line :: line in lines ==> SingleLine(line)
    ensures Lines(Join("\n", lines)) == lines
  {
    if lines == [] {
      assert SplitAll("", '\n') == [""];
    } else {
      SplitAllJoin(lines, '\n');
      NonEmptyKeepsNonEmpty(lines);
    }
  }

  /** A single line is indented by prefixing four spaces. */
  lemma IndentSingleLine(line: string)
    requires SingleLine(line)
    ensures Indent(line) == Spaces + line
  {
    LinesOfJoin([line]);
    assert Split(line, '\n') == [line];
  }

  /** `indent` prefixes every line of `str` with four spaces and keeps them in order. */
  lemma IndentLines(str: string)
    ensures Lines(Indent(str)) == Mapr(IndentLine, Lines(str))
  {
    LinesSound(str);
    var indented := Mapr(IndentLine, Lines(str));
    forall line | line in indented
      ensures SingleLine(line)
    {
      var i :| 0 <= i < |indented| && indented[i] == line;
      assert Lines(str)[i] in Lines(str);
    }
    LinesOfJoin(indented);
  }

  // ---------------------------------------------------------------------------
  // Describing an array
  // ---------------------------------------------------------------------------

  /** The entries of a described list: every one but the last is followed by a comma. */
  function Commas(entries: seq<string>): (r: seq<string>)
    ensures |r| == |entries|
    ensures forall i :: 0 <= i < |entries| ==>
      r[i] == entries[i] + (if i < |entries| - 1 then "," else "")
    decreases |entries|
  {
    if |entries| <= 1 then entries
    else [entries[0] + ","] + Commas(entries[1..])
  }

  /** Joining with ",\n" is joining the comma-terminated entries with "\n". */
  lemma {:induction false} JoinCommaNewline(entries: seq<string>)
    ensures Join(",\n", entries) == Join("\n", Commas(entries))
    decreases |entries|
  {
    if |entries| > 1 {
      JoinCommaNewline(entries[1..]);
      JoinCons("\n", entries[0] + ",", Commas(entries[1..]));
      assert Commas(entries) == [entries[0] + ","] + Commas(entries[1..]);
      assert entries[0] + ",\n" + Join(",\n", entries[1..])
          == (entries[0] + ",") + "\n" + Join(",\n", entries[1..]);
    }
  }

  /** How an element renders once indented, when it renders as one line. */
  function IndentedFormat<T>(formatElement: T -> string): T -> string
  {
    x => Spaces + formatElement(x)
  }

  /** The lines of a list whose elements each render as one line. */
  function ListedLines<T>(items: seq<T>, formatElement: T -> string): seq<string>
  {
    Commas(Mapr(IndentedFormat(formatElement), items))
  }

  /** An empty array is described as an empty bracketed body. */
  lemma DescribeEmpty<T>(formatElement: T -> string)
    ensures Describe([], formatElement) == "[\n\n]"
  {
  }

  /** Single-line elements are indented by prefixing four spaces. */
  lemma IndentedEntries<T>(items: seq<T>, formatElement: T -> string)
    requires forall x :: x in items ==> SingleLine(formatElement(x))
    ensures Mapr(Compose(formatElement, Indent), items) == Mapr(IndentedFormat(formatElement), items)
  {
    var indented := Mapr(Compose(formatElement, Indent), items);
    var entries := Mapr(IndentedFormat(formatElement), items);
    forall i | 0 <= i < |items|
      ensures indented[i] == entries[i]
    {
      assert items[i] in items;
      IndentSingleLine(formatElement(items[i]));
    }
  }

  /** Each listed line of single-line elements is itself a single line. */
  lemma ListedLinesSingle<T>(items: seq<T>, formatElement: T -> string)
    requires forall x :: x in items ==> SingleLine(formatElement(x))
    ensures forall line :: line in ListedLines(items, formatElement) ==> SingleLine(line)
  {
    var entries := Mapr(IndentedFormat(formatElement), items);
    var listed := Commas(entries);
    forall line | line in listed
      ensures SingleLine(line)
    {
      var i :| 0 <= i < |listed| && listed[i] == line;
      assert items[i] in items;
      IndentedEntrySingle(formatElement(items[i]), if i < |entries| - 1 then "," else "");
    }
  }

  /** An indented single line, with or without a comma, is one line. */
  lemma IndentedEntrySingle(body: string, comma: string)
    requires SingleLine(body) && '\n' !in comma
    ensures SingleLine(Spaces + body + comma)
  {
    var line := Spaces + body + comma;
    forall k | 0 <= k < |line|
      ensures line[k] != '\n'
    {
      if k < |Spaces| {
        assert line[k] == Spaces[k];
      } else if k < |Spaces| + |body| {
        assert line[k] == body[k - |Spaces|];
      } else {
        assert line[k] == comma[k - |Spaces| - |body|];
      }
    }
  }

  /** The body of a description of single-line elements is its listed lines joined by newlines. */
  lemma DescribeBody<T>(items: seq<T>, formatElement: T -> string)
    requires forall x :: x in items ==> SingleLine(formatElement(x))
    ensures Describe(items, formatElement) == "[\n" + Join("\n", ListedLines(items, formatElement)) + "\n]"
    ensures forall line :: line in ListedLines(items, formatElement) ==> SingleLine(line)
  {
    IndentedEntries(items, formatElement);
    JoinCommaNewline(Mapr(IndentedFormat(formatElement), items));
    ListedLinesSingle(items, formatElement);
  }

  /** Joining a first line, some middle lines and a last line with newlines. */
  lemma JoinFramed(first: string, middle: seq<string>, last: string)
    ensures first + "\n" + Join("\n", middle) + "\n" + last
         == Join("\n", if middle == [] then [first, "", last] else [first] + middle + [last])
  {
    if middle == [] {
      JoinFramedEmpty(first, last);
    } else {
      JoinFramedNonEmpty(first, middle, last);
    }
  }

  /** `JoinFramed` with no middle lines: an empty line between the first and the last. */
  lemma JoinFramedEmpty(first: string, last: string)
    ensures first + "\n" + Join("\n", []) + "\n" + last == Join("\n", [first, "", last])
  {
    assert [first, "", last] == [first] + ["", last];
    assert ["", last] == [""] + [last];
    JoinCons("\n", first, ["", last]);
    JoinCons("\n", "", [last]);
  }

  /** `JoinFramed` with at least one middle line. */
  lemma JoinFramedNonEmpty(first: string, middle: seq<string>, last: string)
    requires middle != []
    ensures first + "\n" + Join("\n", middle) + "\n" + last == Join("\n", [first] + middle + [last])
  {
    assert [first] + middle + [last] == [first] + (middle + [last]);
    JoinSnoc("\n", middle, last);
    JoinCons("\n", first, middle + [last]);
    var m := Join("\n", middle);
    assert first + "\n" + (m + "\n" + last) == first + "\n" + m + "\n" + last;
  }

  /**
   * Framed by `prefix` and `suffix`, a description whose elements each render
   * as one line has one line for the opening bracket, one line per element in
   * order (indented, with a comma after all but the last) and one line for the
   * closing bracket; an empty array gives just the two bracket lines.
   */
  lemma DescribeFramedLines<T>(prefix: string, items: seq<T>, formatElement: T -> string, suffix: string)
    requires '\n' !in prefix && '\n' !in suffix
    requires forall x :: x in items ==> SingleLine(formatElement(x))
    ensures Lines(prefix + Describe(items, formatElement) + suffix)
         == [prefix + "["] + ListedLines(items, formatElement) + ["]" + suffix]
  {
    DescribeBody(items, formatElement);
    var listed := ListedLines(items, formatElement);
    var first, last := prefix + "[", "]" + suffix;
    assert prefix + Describe(items, formatElement) + suffix
        == first + "\n" + Join("\n", listed) + "\n" + last;
    JoinFramed(first, listed, last);
    if listed == [] {
      var all := [first, "", last];
      SplitAllJoin(all, '\n');
      assert NonEmpty(all) == [first] + NonEmpty(["", last]) by {
        assert all[1..] == ["", last];
      }
      assert NonEmpty(["", last]) == NonEmpty([last]) by {
        assert ["", last][1..] == [last];
      }
      assert NonEmpty([last]) == [last] by {
        assert [last][1..] == [];
      }
      assert [first] + listed + [last] == [first, last];
    } else {
      var all := [first] + listed + [last];
      forall line | line in all
        ensures SingleLine(line)
      {
        if line != first && line != last {
          assert line in listed;
        }
      }
      LinesOfJoin(all);
    }
  }

  /** Without a frame: "[", then the entries, then "]". */
  lemma DescribeLines<T>(items: seq<T>, formatElement: T -> string)
    requires forall x :: x in items ==> SingleLine(formatElement(x))
    ensures Lines(Describe(items, formatElement)) == ["["] + ListedLines(items, formatElement) + ["]"]
    ensures |Lines(Describe(items, formatElement))| == |items| + 2
  {
    DescribeFramedLines("", items, formatElement, "");
    assert "" + Describe(items, formatElement) + "" == Describe(items, formatElement);
    assert "" + "[" == "[" && "]" + "" == "]";
  }
}
