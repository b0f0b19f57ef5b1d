/**
 * The text part of `parseCSV` (src/utils/dataProcessing.ts): split the text
 * into lines, drop the blank ones, take the first as the header, and turn each
 * remaining line into a row object that maps header names to trimmed cells.
 * No quoting, no escaping and no type conversion.
 */
module CsvParser {
  import opened Wrappers
  import Sequences

  /**
   * One row object: header name to cell text. `None` is JavaScript's
   * `undefined`, which a header gets when its line has too few cells.
   */
  type Row = map<string, Option<string>>

  /**
   * What the parser computes: the header names it split off the first line
   * and the rows. The rows are what the promise resolves with; the header list
   * is kept because the key order of a JavaScript object (first assignment
   * first) is not visible in a `map`.
   */
  datatype Table = Table(headers: seq<string>, rows: seq<Row>)

  // --- String.prototype.split with a one-character separator ---------------

  /** `parts.join(sep)`; the inverse of Split. */
  function Join(parts: seq<string>, sep: char): string
  {
    if |parts| == 0 then ""
    else if |parts| == 1 then parts[0]
    else parts[0] + [sep] + Join(parts[1..], sep)
  }

  /**
   * `s.split(sep)`: the maximal separator-free pieces between separators.
   * There is always at least one piece (`"".split(",")` is `[""]`).
   */
  function Split(s: string, sep: char): (parts: seq<string>)
    ensures |parts| >= 1
  {
    if |s| == 0 then [""]
    else
      var rest := Split(s[1..], sep);
      if s[0] == sep then [""] + rest
      else [[s[0]] + rest[0]] + rest[1..]
  }

  /** No piece holds the separator. */
  lemma {:induction false} SplitPiecesFree(s: string, sep: char)
    ensures forall i :: 0 <= i < |Split(s, sep)| ==> sep !in Split(s, sep)[i]
  {
    if |s| > 0 {
      var rest := Split(s[1..], sep);
      SplitPiecesFree(s[1..], sep);
      var parts := Split(s, sep);
      if s[0] == sep {
        assert parts == [""] + rest;
        forall i | 0 <= i < |parts| ensures sep !in parts[i] {
          if i > 0 {
            assert parts[i] == rest[i - 1];
          }
        }
      } else {
        assert parts == [[s[0]] + rest[0]] + rest[1..];
        forall i | 0 <= i < |parts| ensures sep !in parts[i] {
          if i > 0 {
            assert parts[i] == rest[i];
          }
        }
      }
    }
  }

  /** Joining the pieces gives back the text. */
  lemma {:induction false} JoinSplit(s: string, sep: char)
    ensures Join(Split(s, sep), sep) == s
  {
    if |s| > 0 {
      var rest := Split(s[1..], sep);
      JoinSplit(s[1..], sep);
      assert s == [s[0]] + s[1..];
      var parts := Split(s, sep);
      if s[0] == sep {
        assert parts == [""] + rest;
        assert parts[1..] == rest;
      } else {
        assert parts == [[s[0]] + rest[0]] + rest[1..];
        assert |rest| > 1 ==> Join(rest, sep) == rest[0] + [sep] + Join(rest[1..], sep);
        assert parts[1..] == rest[1..];
      }
    }
  }

  lemma {:induction false} SplitWithoutSeparator(p: string, sep: char)
    requires sep !in p
    ensures Split(p, sep) == [p]
  {
    if |p| > 0 {
      SplitWithoutSeparator(p[1..], sep);
      assert [p[0]] + p[1..] == p;
    }
  }

  lemma {:induction false} SplitAfterPiece(p: string, r: string, sep: char)
    requires sep !in p
    ensures Split(p + [sep] + r, sep) == [p] + Split(r, sep)
  {
    var s := p + [sep] + r;
    if |p| == 0 {
      assert s[0] == sep && s[1..] == r;
    } else {
      SplitAfterPiece(p[1..], r, sep);
      assert s[0] == p[0] && s[1..] == p[1..] + [sep] + r;
      assert [p[0]] + p[1..] == p;
    }
  }

  /** Splitting a join gives back the pieces, when none holds the separator. */
  lemma {:induction false} SplitJoin(parts: seq<string>, sep: char)
    requires |parts| >= 1
    requires forall i :: 0 <= i < |parts| ==> sep !in parts[i]
    ensures Split(Join(parts, sep), sep) == parts
  {
    if |parts| == 1 {
      SplitWithoutSeparator(parts[0], sep);
    } else {
      SplitJoin(parts[1..], sep);
      SplitAfterPiece(parts[0], Join(parts[1..], sep), sep);
      assert [parts[0]] + parts[1..] == parts;
    }
  }

  lemma {:induction false} JoinAppend(p: seq<string>, q: seq<string>, sep: char)
    requires |p| >= 1 && |q| >= 1
    ensures Join(p + q, sep) == Join(p, sep) + [sep] + Join(q, sep)
  {
    if |p| > 1 {
      JoinAppend(p[1..], q, sep);
      assert (p + q)[1..] == p[1..] + q;
    }
  }

  /** A separator in the text splits it into the pieces of either side. */
  lemma SplitAppend(a: string, b: string, sep: char)
    ensures Split(a + [sep] + b, sep) == Split(a, sep) + Split(b, sep)
  {
    var parts := Split(a, sep) + Split(b, sep);
    SplitPiecesFree(a, sep);
    SplitPiecesFree(b, sep);
    JoinSplit(a, sep);
    JoinSplit(b, sep);
    JoinAppend(Split(a, sep), Split(b, sep), sep);
    SplitJoin(parts, sep);
  }

  lemma {:induction false} JoinKeepsCharacters(parts: seq<string>, sep: char, i: nat, c: char)
    requires i < |parts| && c in parts[i]
    ensures c in Join(parts, sep)
  {
    if i > 0 {
      JoinKeepsCharacters(parts[1..], sep, i - 1, c);
    }
  }

  // --- String.prototype.trim -------------------------------------------------

  /**
   * ECMAScript's WhiteSpace and LineTerminator code points, which `trim`
   * removes: tab, line feed, vertical tab, form feed, carriage return, space,
   * no-break space, the byte order mark, the line and paragraph separators
   * and the space separators U+1680, U+2000-U+200A, U+202F, U+205F, U+3000.
   */
  predicate IsWhitespace(c: char) {
    var n := c as int;
    || (0x09 <= n <= 0x0D) || n == 0x20 || n == 0xA0 || n == 0x1680
    || (0x2000 <= n <= 0x200A) || n == 0x2028 || n == 0x2029 || n == 0x202F
    || n == 0x205F || n == 0x3000 || n == 0xFEFF
  }

  ghost predicate AllWhitespace(s: string) {
    forall i :: 0 <= i < |s| ==> IsWhitespace(s[i])
  }

  function TrimStart(s: string): string
  {
    if |s| > 0 && IsWhitespace(s[0]) then TrimStart(s[1..]) else s
  }

  function TrimEnd(s: string): string
  {
    if |s| > 0 && IsWhitespace(s[|s| - 1]) then TrimEnd(s[..|s| - 1]) else s
  }

  lemma {:induction false} TrimStartSpec(s: string)
    ensures var r := TrimStart(s);
            && |r| <= |s| && r == s[|s| - |r|..]
            && AllWhitespace(s[..|s| - |r|])
            && (r == [] || !IsWhitespace(r[0]))
  {
    if |s| > 0 && IsWhitespace(s[0]) {
      TrimStartSpec(s[1..]);
      var r := TrimStart(s[1..]);
      assert s[..|s| - |r|] == [s[0]] + s[1..][..|s[1..]| - |r|];
    }
  }

  lemma {:induction false} TrimEndSpec(s: string)
    ensures var r := TrimEnd(s);
            && |r| <= |s| && r == s[..|r|]
            && AllWhitespace(s[|r|..])
            && (r == [] || !IsWhitespace(r[|r| - 1]))
  {
    if |s| > 0 && IsWhitespace(s[|s| - 1]) {
      TrimEndSpec(s[..|s| - 1]);
      var r := TrimEnd(s[..|s| - 1]);
      assert s[|r|..] == s[..|s| - 1][|r|..] + [s[|s| - 1]];
    }
  }

  /** `s.trim()`: `s` without its leading and trailing whitespace (see TrimSpec). */
  function Trim(s: string): string
  {
    TrimEnd(TrimStart(s))
  }

  /**
   * Trim keeps the slice of `s` between its leading and its trailing
   * whitespace: the result is empty exactly when `s` is all whitespace, and
   * otherwise starts and ends with a character that is not whitespace.
   */
  lemma TrimSpec(s: string)
    ensures var r := Trim(s);
            && (exists i :: 0 <= i <= |s| - |r| && r == s[i..i + |r|]
                  && AllWhitespace(s[..i]) && AllWhitespace(s[i + |r|..]))
            && (r == [] <==> AllWhitespace(s))
            && (r == [] || (!IsWhitespace(r[0]) && !IsWhitespace(r[|r| - 1])))
  {
    var t := TrimStart(s);
    var r := TrimEnd(t);
    TrimStartSpec(s);
    TrimEndSpec(t);
    assert Trim(s) == r;
    var i := |s| - |t|;
    assert r == s[i..i + |r|] && AllWhitespace(s[..i]) && AllWhitespace(s[i + |r|..]) by {
      assert s[i + |r|..] == t[|r|..];
    }
    assert r == [] ==> AllWhitespace(s) by {
      if r == [] {
        assert t == [];
        forall j | 0 <= j < |s| ensures IsWhitespace(s[j]) {
          assert s[j] == s[..i][j];
        }
      }
    }
    assert r != [] ==> !AllWhitespace(s) by {
      if r != [] {
        assert s[i] == r[0];
      }
    }
  }

  /** Trimming twice is trimming once. */
  lemma TrimIdempotent(s: string)
    ensures Trim(Trim(s)) == Trim(s)
  {
    var r := Trim(s);
    TrimSpec(s);
    if r != [] {
      assert TrimStart(r) == r;
      assert TrimEnd(r) == r;
    } else {
      assert TrimStart(r) == r;
    }
  }

  // --- Lines and cells -----------------------------------------------------

  /** `line.trim()` is truthy: the line has a character that is not whitespace. */
  predicate IsContentLine(line: string) {
    Trim(line) != ""
  }

  /** The lines of the text, split at newlines, that are not blank, in order. */
  function ContentLines(text: string): seq<string> {
    Sequences.Filter(Split(text, '\n'), IsContentLine)
  }

  /** The cells of a line: its comma-separated pieces, each trimmed. */
  function Fields(line: string): (cells: seq<string>)
    ensures |cells| == |Split(line, ',')|
  {
    var parts := Split(line, ',');
    seq(|parts|, i requires 0 <= i < |parts| => Trim(parts[i]))
  }

  /** The cell at a position, or `undefined` past the end of the line. */
  function Cell(values: seq<string>, index: nat): Option<string> {
    if index < |values| then Some(values[index]) else None
  }

  /**
   * The one header name that never becomes a key: assigning a string to
   * `__proto__` on a plain object goes to the inherited prototype setter,
   * which ignores anything that is not an object.
   */
  const ProtoKey: string := "__proto__"

  /** Assigning to this name creates an own property of the row. */
  predicate IsOwnKey(header: string) {
    header != ProtoKey
  }

  /** The names that become keys of a row. */
  function HeaderSet(headers: seq<string>): set<string> {
    set h | h in headers && IsOwnKey(h)
  }

  /** Position `i` holds the last occurrence of its header name. */
  ghost predicate IsLastOccurrence(headers: seq<string>, i: int) {
    0 <= i < |headers| && forall j :: i < j < |headers| ==> headers[j] != headers[i]
  }

  /**
   * The row object after one assignment per header name, in header order:
   * a later duplicate name overwrites an earlier one, and `__proto__`
   * assigns nothing.
   */
  function RowOf(headers: seq<string>, values: seq<string>): Row
  {
    if |headers| == 0 then map[]
    else
      var front := RowOf(headers[..|headers| - 1], values);
      var header := headers[|headers| - 1];
      if IsOwnKey(header) then front[header := Cell(values, |headers| - 1)] else front
  }

  /**
   * `row` has exactly the header names other than `__proto__` as keys, and
   * each of them holds the cell at its last position in the header.
   */
  ghost predicate RowFits(headers: seq<string>, values: seq<string>, row: Row) {
    && row.Keys == HeaderSet(headers)
    && forall i :: IsLastOccurrence(headers, i) && IsOwnKey(headers[i]) ==> row[headers[i]] == Cell(values, i)
  }

  /**
   * A row has exactly the header names other than `__proto__` as keys, and
   * each of them holds the cell at its last position in the header
   * (`undefined` when the line is short).
   */
  lemma {:induction false} RowOfLookup(headers: seq<string>, values: seq<string>)
    ensures RowFits(headers, values, RowOf(headers, values))
  {
    RowOfKeys(headers, values);
    RowOfValues(headers, values);
  }

  lemma {:induction false} RowOfKeys(headers: seq<string>, values: seq<string>)
    ensures RowOf(headers, values).Keys == HeaderSet(headers)
  {
    var n := |headers|;
    if n > 0 {
      var front := headers[..n - 1];
      RowOfKeys(front, values);
      assert headers == front + [headers[n - 1]];
      if IsOwnKey(headers[n - 1]) {
        assert HeaderSet(headers) == HeaderSet(front) + {headers[n - 1]};
      } else {
        assert HeaderSet(headers) == HeaderSet(front);
      }
    }
  }

  lemma {:induction false} RowOfValues(headers: seq<string>, values: seq<string>)
    ensures forall i :: IsLastOccurrence(headers, i) && IsOwnKey(headers[i]) ==>
              headers[i] in RowOf(headers, values) && RowOf(headers, values)[headers[i]] == Cell(values, i)
  {
    var n := |headers|;
    if n > 0 {
      var front := headers[..n - 1];
      RowOfValues(front, values);
      forall i | IsLastOccurrence(headers, i) && IsOwnKey(headers[i])
        ensures headers[i] in RowOf(headers, values) && RowOf(headers, values)[headers[i]] == Cell(values, i)
      {
        if i < n - 1 {
          assert IsLastOccurrence(front, i);
          assert front[i] == headers[i];
        }
      }
    }
  }

  /** A `__proto__` header gives the row no key of that name, wherever it stands. */
  lemma ProtoHeaderAssignsNothing(headers: seq<string>, values: seq<string>)
    ensures ProtoKey !in RowOf(headers, values)
  {
    RowOfKeys(headers, values);
  }

  /** Cells past the last header are dropped. */
  lemma {:induction false} ExtraCellsDropped(headers: seq<string>, values: seq<string>)
    requires |values| >= |headers|
    ensures RowOf(headers, values) == RowOf(headers, values[..|headers|])
  {
    RowOfCellsAgree(headers, values, values[..|headers|]);
  }

  lemma {:induction false} RowOfCellsAgree(headers: seq<string>, v: seq<string>, w: seq<string>)
    requires forall i :: 0 <= i < |headers| ==> Cell(v, i) == Cell(w, i)
    ensures RowOf(headers, v) == RowOf(headers, w)
  {
    if |headers| > 0 {
      RowOfCellsAgree(headers[..|headers| - 1], v, w);
    }
  }

  /**
   * `parseCSV` on the file's text. With no content line, `lines[0]` is
   * `undefined` and `lines[0].split` throws inside the load handler, so the
   * promise never resolves: `None`.
   */
  function ParseCsv(text: string): Option<Table>
  {
    TableOf(ContentLines(text))
  }

  /** The table built from the content lines, the first being the header. */
  function TableOf(lines: seq<string>): (r: Option<Table>)
    ensures r.None? <==> |lines| == 0
    ensures r.Some? ==> r.value.headers == Fields(lines[0]) && |r.value.rows| == |lines| - 1
  {
    if |lines| == 0 then None
    else
      var headers := Fields(lines[0]);
      Some(Table(headers, seq(|lines| - 1, i requires 0 <= i < |lines| - 1 => RowOf(headers, Fields(lines[i + 1])))))
  }

  /** The loop of `headers.forEach`, assigning one key at a time. */
  method BuildRow(headers: seq<string>, values: seq<string>) returns (row: Row)
    ensures row == RowOf(headers, values)
    ensures RowFits(headers, values, row)
  {
    row := map[];
    for index := 0 to |headers|
      invariant row == RowOf(headers[..index], values)
    {
      assert headers[..index + 1][..index] == headers[..index];
      if IsOwnKey(headers[index]) {
        row := row[headers[index] := Cell(values, index)];
      }
    }
    assert headers[..|headers|] == headers;
    RowOfLookup(headers, values);
  }

  /** The `onload` handler's computation on the file's text. */
  method ParseText(text: string) returns (result: Option<Table>)
    ensures result == ParseCsv(text)
  {
    result := ParseLines(ContentLines(text));
  }

  /** `lines.slice(1).map(...)`, building one row object per data line. */
  method ParseLines(lines: seq<string>) returns (result: Option<Table>)
    ensures result == TableOf(lines)
  {
    if |lines| == 0 {
      return None;
    }
    var headers := Fields(lines[0]);
    var rows: seq<Row> := [];
    for k := 1 to |lines|
      invariant |rows| == k - 1
      invariant forall i :: 0 <= i < k - 1 ==> rows[i] == RowOf(headers, Fields(lines[i + 1]))
    {
      var row := BuildRow(headers, Fields(lines[k]));
      rows := rows + [row];
    }
    var expected := TableOf(lines).value;
    assert rows == expected.rows by {
      assert |rows| == |expected.rows|;
      forall i | 0 <= i < |rows| ensures rows[i] == expected.rows[i] {
        assert expected.rows[i] == RowOf(headers, Fields(lines[i + 1]));
      }
    }
    result := Some(Table(headers, rows));
  }

  // --- Properties of the parser ----------------------------------------------

  /** Every line holds nothing but whitespace. */
  ghost predicate AllBlank(lines: seq<string>) {
    forall i :: 0 <= i < |lines| ==> AllWhitespace(lines[i])
  }

  /** Parsing fails exactly when every line of the text is blank. */
  lemma ParseFailsIffAllBlank(text: string)
    ensures ParseCsv(text).None? <==> AllBlank(Split(text, '\n'))
  {
    NoContentIffAllBlank(Split(text, '\n'));
  }

  lemma NoContentIffAllBlank(lines: seq<string>)
    ensures Sequences.Filter(lines, IsContentLine) == [] <==> AllBlank(lines)
  {
    var kept := Sequences.Filter(lines, IsContentLine);
    Sequences.FilterMembers(lines, IsContentLine);
    if |kept| > 0 {
      var j :| 0 <= j < |lines| && lines[j] == kept[0];
      IsContentLineIff(kept[0]);
    } else {
      forall i | 0 <= i < |lines| ensures AllWhitespace(lines[i]) {
        IsContentLineIff(lines[i]);
      }
    }
  }

  lemma IsContentLineIff(line: string)
    ensures IsContentLine(line) <==> !AllWhitespace(line)
  {
    TrimSpec(line);
  }

  /**
   * The header is the first content line's trimmed cells; each later content
   * line gives one row, in order, keyed by exactly the header names, each name
   * holding the raw trimmed cell at its last header position.
   */
  lemma ParsedRows(text: string)
    requires ParseCsv(text).Some?
    ensures var t, lines := ParseCsv(text).value, ContentLines(text);
            && |lines| >= 1
            && t.headers == Fields(lines[0])
            && |t.rows| == |lines| - 1
            && forall r :: 0 <= r < |t.rows| ==> RowFits(t.headers, Fields(lines[r + 1]), t.rows[r])
  {
    TableRows(ContentLines(text));
  }

  lemma TableRows(lines: seq<string>)
    requires |lines| >= 1
    ensures var t := TableOf(lines).value;
            forall r :: 0 <= r < |t.rows| ==> RowFits(t.headers, Fields(lines[r + 1]), t.rows[r])
  {
    var t := TableOf(lines).value;
    forall r | 0 <= r < |t.rows| ensures RowFits(t.headers, Fields(lines[r + 1]), t.rows[r]) {
      RowOfLookup(t.headers, Fields(lines[r + 1]));
    }
  }

  lemma {:induction false} SplitOfWhitespaceIsBlank(w: string)
    requires AllWhitespace(w)
    ensures Sequences.Filter(Split(w, '\n'), IsContentLine) == []
  {
    var parts := Split(w, '\n');
    JoinSplit(w, '\n');
    var kept := Sequences.Filter(parts, IsContentLine);
    Sequences.FilterMembers(parts, IsContentLine);
    if |kept| > 0 {
      var i :| 0 <= i < |parts| && parts[i] == kept[0];
      forall j | 0 <= j < |parts[i]| ensures IsWhitespace(parts[i][j]) {
        JoinKeepsCharacters(parts, '\n', i, parts[i][j]);
      }
      IsContentLineIff(parts[i]);
      assert false;
    }
  }

  /** A whitespace-only line anywhere in the text changes nothing. */
  lemma BlankLineIgnored(a: string, w: string, b: string)
    requires AllWhitespace(w)
    ensures ParseCsv(a + "\n" + w + "\n" + b) == ParseCsv(a + "\n" + b)
  {
    var nl := '\n';
    var x, y := a + "\n" + w + "\n" + b, a + "\n" + b;
    var la, lw, lb := Split(a, nl), Split(w, nl), Split(b, nl);
    assert Split(x, nl) == la + lw + lb by {
      assert x == (a + [nl] + w) + [nl] + b;
      SplitAppend(a + [nl] + w, b, nl);
      SplitAppend(a, w, nl);
    }
    assert Split(y, nl) == la + lb by {
      assert y == a + [nl] + b;
      SplitAppend(a, b, nl);
    }
    assert ContentLines(x) == ContentLines(y) by {
      SplitOfWhitespaceIsBlank(w);
      Sequences.FilterSkip(la, lw, lb, IsContentLine);
    }
  }
}
