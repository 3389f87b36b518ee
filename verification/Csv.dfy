/** CSV export and import: a printer, and a parser that walks each line with a global regular expression. */
module Csv {
  import opened Wrappers
  import opened Text

  type Record = map<string, string>

  // ----- printing

  function DoubleQuotes(s: string): string {
    if s == "" then "" else (if s[0] == '"' then "\"\"" else [s[0]]) + DoubleQuotes(s[1..])
  }

  predicate NeedsQuotes(s: string) {
    '"' in s || ',' in s || '\n' in s
  }

  function EscapeCell(s: string): string {
    if NeedsQuotes(s) then "\"" + DoubleQuotes(s) + "\"" else s
  }

  /** `sep` before every element. */
  function Tail(parts: seq<string>, sep: char): string {
    if parts == [] then "" else [sep] + parts[0] + Tail(parts[1..], sep)
  }

  function Join(parts: seq<string>, sep: char): string {
    if parts == [] then "" else parts[0] + Tail(parts[1..], sep)
  }

  function EscapeAll(cells: seq<string>): seq<string> {
    seq(|cells|, i requires 0 <= i < |cells| => EscapeCell(cells[i]))
  }

  function Line(cells: seq<string>): string {
    Join(EscapeAll(cells), ',')
  }

  function CellsOf(headers: seq<string>, row: Record): seq<string> {
    seq(|headers|, i requires 0 <= i < |headers| => if headers[i] in row then row[headers[i]] else "")
  }

  function Lines(headers: seq<string>, rows: seq<Record>): seq<string> {
    [Line(headers)] + seq(|rows|, i requires 0 <= i < |rows| => Line(CellsOf(headers, rows[i])))
  }

  /** `headers` are the keys of the first row, in their order. */
  function RowsToCsv(headers: seq<string>, rows: seq<Record>): string {
    if rows == [] then "" else Join(Lines(headers, rows), '\n')
  }

  // ----- matching one field

  /**
   Where a quoted field that began before `p` ends. The quantifier takes doubled quotes greedily; when no closing
   quote follows, it gives back the last pair, whose first quote then closes the field at `fallback`.
   */
  function ScanQuoted(s: string, p: nat, fallback: Option<nat>): (end: Option<nat>)
    requires p <= |s| && (fallback.Some? ==> 0 < fallback.value <= |s|)
    ensures end.Some? ==> 0 < end.value <= |s|
    decreases |s| - p
  {
    if p == |s| then fallback
    else if s[p] != '"' then ScanQuoted(s, p + 1, fallback)
    else if p + 1 < |s| && s[p + 1] == '"' then ScanQuoted(s, p + 2, Some(p + 1))
    else Some(p + 1)
  }

  function UntilComma(s: string): (n: nat)
    ensures n <= |s|
  {
    if s == "" || s[0] == ',' then 0 else 1 + UntilComma(s[1..])
  }

  /** The length of the field at the start of `s`: quoted if that matches, else everything up to a comma. */
  function FieldLength(s: string): (n: nat)
    ensures n <= |s|
  {
    var quoted := if s != "" && s[0] == '"' then ScanQuoted(s, 1, None) else None;
    if quoted.Some? then quoted.value else UntilComma(s)
  }

  // ----- what is matched, without the scan

  /** No quotes but doubled ones. */
  predicate Doubled(t: string) {
    || t == ""
    || (t[0] != '"' && Doubled(t[1..]))
    || (|t| >= 2 && t[0] == '"' && t[1] == '"' && Doubled(t[2..]))
  }

  /** A quoted field: in quotes, and inside them no quotes but doubled ones. */
  predicate Quoted(q: string) {
    |q| >= 2 && q[0] == '"' && q[|q| - 1] == '"' && Doubled(q[1..|q| - 1])
  }

  lemma {:induction false} DoubledInTwo(a: string, b: string)
    requires Doubled(a)
    ensures Doubled(a + b) <==> Doubled(b)
  {
    if a == "" {
      assert a + b == b;
    } else if a[0] != '"' {
      DoubledInTwo(a[1..], b);
      assert (a + b)[1..] == a[1..] + b;
    } else {
      DoubledInTwo(a[2..], b);
      assert (a + b)[2..] == a[2..] + b;
    }
  }

  lemma DoubledUpTo(s: string, p: nat, n: nat)
    requires 1 <= p <= n <= |s| && Doubled(s[1..p])
    ensures Doubled(s[1..n]) <==> Doubled(s[p..n])
  {
    DoubledInTwo(s[1..p], s[p..n]);
    assert s[1..p] + s[p..n] == s[1..n];
  }

  lemma InsideOf(s: string, n: nat)
    requires 2 <= n <= |s|
    ensures s[..n][1..n - 1] == s[1..n - 1]
    ensures Quoted(s[..n]) <==> s[0] == '"' && s[n - 1] == '"' && Doubled(s[1..n - 1])
  {
    assert s[..n][1..n - 1] == s[1..n - 1];
  }

  /** Up to `p`, quoted beginnings of `s` end at `last` at the latest, if there is any. */
  ghost predicate LongestQuoted(s: string, p: nat, last: Option<nat>) {
    && (last.Some? ==> last.value <= |s| && Quoted(s[..last.value]))
    && forall n :: 0 <= n <= p && n <= |s| && Quoted(s[..n]) ==> last.Some? && n <= last.value
  }

  lemma OneMoreCharacter(s: string, p: nat, last: Option<nat>)
    requires 1 <= p < |s| && s[0] == '"' && Doubled(s[1..p]) && LongestQuoted(s, p, last)
    ensures s[p] != '"' ==> Doubled(s[1..p + 1]) && LongestQuoted(s, p + 1, last)
    ensures s[p] == '"' ==> !Doubled(s[1..p + 1]) && LongestQuoted(s, p + 1, Some(p + 1))
  {
    DoubledUpTo(s, p, p + 1);
    InsideOf(s, p + 1);
    var c := s[p..p + 1];
    assert c[1..] == "";
    hide Quoted;
    forall n | 0 <= n <= p + 1 && Quoted(s[..n])
      ensures n == p + 1 || (last.Some? && n <= last.value)
    {
    }
  }

  lemma PairKeepsDoubled(s: string, p: nat, last: Option<nat>)
    requires 1 <= p && p + 1 < |s| && s[0] == '"' && Doubled(s[1..p]) && s[p] == '"' && s[p + 1] == '"'
    requires LongestQuoted(s, p, last)
    ensures Doubled(s[1..p + 2]) && LongestQuoted(s, p + 2, Some(p + 1))
  {
    OneMoreCharacter(s, p, last);
    DoubledUpTo(s, p, p + 2);
    var c := s[p..p + 2];
    assert c[2..] == "";
    InsideOf(s, p + 2);
  }

  lemma NoneAfterALoneQuote(s: string, p: nat, last: Option<nat>)
    requires 1 <= p < |s| && s[0] == '"' && Doubled(s[1..p]) && s[p] == '"' && (p + 1 < |s| ==> s[p + 1] != '"')
    requires LongestQuoted(s, p, last)
    ensures LongestQuoted(s, |s|, Some(p + 1))
  {
    OneMoreCharacter(s, p, last);
    forall n | p + 1 < n <= |s|
      ensures !Quoted(s[..n])
    {
      DoubledUpTo(s, p, n - 1);
      InsideOf(s, n);
    }
  }

  lemma {:induction false} ScanFindsTheLongest(s: string, p: nat, fallback: Option<nat>)
    requires 1 <= p <= |s| && s[0] == '"' && Doubled(s[1..p])
    requires LongestQuoted(s, p, fallback) && (fallback.Some? ==> 0 < fallback.value <= |s|)
    ensures LongestQuoted(s, |s|, ScanQuoted(s, p, fallback))
    decreases |s| - p
  {
    hide LongestQuoted, Doubled;
    if p == |s| {
    } else if s[p] != '"' {
      OneMoreCharacter(s, p, fallback);
      ScanFindsTheLongest(s, p + 1, fallback);
    } else if p + 1 < |s| && s[p + 1] == '"' {
      PairKeepsDoubled(s, p, fallback);
      ScanFindsTheLongest(s, p + 2, Some(p + 1));
    } else {
      NoneAfterALoneQuote(s, p, fallback);
    }
  }

  lemma {:induction false} UntilCommaIs(s: string)
    ensures ',' !in s[..UntilComma(s)] && (UntilComma(s) < |s| ==> s[UntilComma(s)] == ',')
  {
    if s == "" || s[0] == ',' {
    } else {
      UntilCommaIs(s[1..]);
      assert s[..UntilComma(s)] == [s[0]] + s[1..][..UntilComma(s) - 1];
    }
  }

  /** On any text: a field is the longest quoted beginning, and if there is none, what precedes the first comma. */
  lemma FieldIsTheLongestQuoted(s: string)
    ensures
      var n := FieldLength(s);
      if exists m :: 0 <= m <= |s| && Quoted(s[..m]) then
        Quoted(s[..n]) && forall m :: 0 <= m <= |s| && Quoted(s[..m]) ==> m <= n
      else ',' !in s[..n] && (n < |s| ==> s[n] == ',')
  {
    UntilCommaIs(s);
    if s != "" && s[0] == '"' {
      assert s[1..1] == "";
      ScanFindsTheLongest(s, 1, None);
    } else {
      assert forall m :: 0 < m <= |s| ==> s[..m][0] == s[0];
    }
  }

  function HalveQuotes(s: string): string {
    if s == "" then ""
    else if |s| >= 2 && s[0] == '"' && s[1] == '"' then "\"" + HalveQuotes(s[2..])
    else [s[0]] + HalveQuotes(s[1..])
  }

  function Value(raw: string): string {
    if raw != "" && raw[0] == '"' && raw[|raw| - 1] == '"'
    then HalveQuotes(if |raw| < 2 then "" else raw[1..|raw| - 1])
    else raw
  }

  // ----- one line

  function NextComma(line: string, at: nat): (i: Option<nat>)
    requires at <= |line|
    ensures i.Some? ==> at <= i.value < |line| && line[i.value] == ','
    decreases |line| - at
  {
    if at == |line| then None else if line[at] == ',' then Some(at) else NextComma(line, at + 1)
  }

  datatype Field = Field(value: string, end: nat)

  /** The match of the expression from index `at` on, `at` not being the start of the line. */
  function NextField(line: string, at: nat): (f: Option<Field>)
    requires at <= |line|
    ensures f.Some? ==> at < f.value.end <= |line|
  {
    match NextComma(line, at)
    case None => None
    case Some(i) =>
      var end := i + 1 + FieldLength(line[i + 1..]);
      Some(Field(Value(line[i + 1..end]), end))
  }

  /** The fields matched from index `at` on. */
  function Values(line: string, at: nat): seq<string>
    requires at <= |line|
    decreases |line| - at
  {
    match NextField(line, at)
    case None => []
    case Some(f) => [f.value] + Values(line, f.end)
  }

  /** Where the last of them ends. */
  function LastEnd(line: string, at: nat): nat
    requires at <= |line|
    decreases |line| - at
  {
    match NextField(line, at)
    case None => at
    case Some(f) => LastEnd(line, f.end)
  }

  /**
   The cells of a line. An empty match at the start of the line does not move the expression on, so the loop would
   match it forever: no result.
   */
  function ParseLine(line: string): Option<seq<string>> {
    var n := FieldLength(line);
    if n == 0 then None
    else
      var extra := if LastEnd(line, n) == |line| && line[|line| - 1] == ',' then [""] else [];
      Some([Value(line[..n])] + Values(line, n) + extra)
  }

  lemma FindingOneMore(all: seq<string>, found: seq<string>, line: string, at: nat)
    requires at <= |line| && all == found + Values(line, at)
    ensures
      match NextField(line, at)
      case None => all == found
      case Some(f) => all == found + [f.value] + Values(line, f.end)
  {
    match NextField(line, at)
    case None =>
    case Some(f) =>
      assert found + ([f.value] + Values(line, f.end)) == found + [f.value] + Values(line, f.end);
  }

  /** The `exec` loop. */
  method ParseRow(line: string) returns (cells: Option<seq<string>>)
    ensures cells == ParseLine(line)
  {
    var lastIndex := FieldLength(line);
    if lastIndex == 0 {
      return None;
    }
    var found := [Value(line[..lastIndex])];
    ghost var all := found + Values(line, lastIndex);
    ghost var lastEnd := LastEnd(line, lastIndex);
    var next := NextField(line, lastIndex);
    while next.Some?
      invariant lastIndex <= |line| && next == NextField(line, lastIndex)
      invariant all == found + Values(line, lastIndex)
      invariant lastEnd == LastEnd(line, lastIndex)
      decreases |line| - lastIndex
    {
      FindingOneMore(all, found, line, lastIndex);
      found := found + [next.value.value];
      lastIndex := next.value.end;
      next := NextField(line, lastIndex);
    }
    FindingOneMore(all, found, line, lastIndex);
    var extra := if lastIndex == |line| && line[|line| - 1] == ',' then [""] else [];
    return Some(found + extra);
  }

  // ----- the whole text

  function FirstNewline(text: string): (i: Option<nat>)
    ensures i.Some? ==> i.value < |text| && text[i.value] == '\n'
  {
    if text == "" then None
    else if text[0] == '\n' then Some(0)
    else
      match FirstNewline(text[1..])
      case None => None
      case Some(i) => Some(i + 1)
  }

  function DropReturn(line: string): string {
    if line != "" && line[|line| - 1] == '\r' then line[..|line| - 1] else line
  }

  function SplitLines(text: string): seq<string>
    decreases |text|
  {
    match FirstNewline(text)
    case None => [text]
    case Some(i) => [DropReturn(text[..i])] + SplitLines(text[i + 1..])
  }

  function NonBlank(lines: seq<string>): seq<string> {
    if lines == [] then []
    else (if Trim(lines[0]) != "" then [lines[0]] else []) + NonBlank(lines[1..])
  }

  function RecordOf(headers: seq<string>, values: seq<string>): Record {
    if |headers| == 0 then map[]
    else
      var i := |headers| - 1;
      RecordOf(headers[..i], values)[Trim(headers[i]) := if i < |values| then Trim(values[i]) else ""]
  }

  function RecordsOf(headers: seq<string>, lines: seq<string>): Option<seq<Record>> {
    if lines == [] then Some([])
    else
      var values := ParseLine(lines[0]);
      var rest := RecordsOf(headers, lines[1..]);
      if values.None? || rest.None? then None else Some([RecordOf(headers, values.value)] + rest.value)
  }

  function ParseLines(lines: seq<string>): Option<seq<Record>> {
    if |lines| < 2 then Some([])
    else
      match ParseLine(lines[0])
      case None => None
      case Some(headers) => RecordsOf(headers, lines[1..])
  }

  /** The records of a CSV text; `None` when parsing does not end. */
  function ParseCsv(text: string): Option<seq<Record>> {
    ParseLines(NonBlank(SplitLines(text)))
  }

  // ----- one cell

  predicate Clean(cell: string) {
    IsTrimmed(cell) && '\n' !in cell
  }

  lemma {:induction false} HalvingUndoesDoubling(s: string)
    ensures HalveQuotes(DoubleQuotes(s)) == s
  {
    if s == "" {
    } else {
      HalvingUndoesDoubling(s[1..]);
      var rest := DoubleQuotes(s[1..]);
      if s[0] == '"' {
        assert ("\"\"" + rest)[2..] == rest;
      } else {
        assert ([s[0]] + rest)[1..] == rest;
      }
      assert s == [s[0]] + s[1..];
    }
  }

  lemma {:induction false} ScanFindsTheClosingQuote(
    line: string, p: nat, s: string, rest: string, fallback: Option<nat>)
    requires p <= |line| && line[p..] == DoubleQuotes(s) + "\"" + rest
    requires rest == "" || rest[0] != '"'
    requires fallback.Some? ==> 0 < fallback.value <= |line|
    ensures ScanQuoted(line, p, fallback) == Some(p + |DoubleQuotes(s)| + 1)
    decreases |s|
  {
    if s == "" {
      assert line[p..][0] == line[p] == '"';
      if p + 1 < |line| {
        assert line[p..][1] == line[p + 1];
      }
    } else {
      var tail := DoubleQuotes(s[1..]);
      assert line[p..][0] == line[p];
      if s[0] == '"' {
        assert line[p..][1] == line[p + 1];
        assert line[p + 2..] == line[p..][2..] == tail + "\"" + rest;
        ScanFindsTheClosingQuote(line, p + 2, s[1..], rest, Some(p + 1));
      } else {
        assert line[p + 1..] == line[p..][1..] == tail + "\"" + rest;
        ScanFindsTheClosingQuote(line, p + 1, s[1..], rest, fallback);
      }
    }
  }

  lemma {:induction false} UntilCommaOf(s: string, rest: string)
    requires ',' !in s && (rest == "" || rest[0] == ',')
    ensures UntilComma(s + rest) == |s|
  {
    if s == "" {
      assert s + rest == rest;
    } else {
      assert (s + rest)[1..] == s[1..] + rest;
      UntilCommaOf(s[1..], rest);
    }
  }

  /** A printed cell followed by a comma or the end of the line is matched whole, and read back as it was. */
  lemma FieldRoundTrip(cell: string, rest: string)
    requires rest == "" || rest[0] == ','
    ensures FieldLength(EscapeCell(cell) + rest) == |EscapeCell(cell)|
    ensures Value(EscapeCell(cell)) == cell
  {
    var printed := EscapeCell(cell);
    var s := printed + rest;
    if NeedsQuotes(cell) {
      assert s[1..] == DoubleQuotes(cell) + "\"" + rest;
      ScanFindsTheClosingQuote(s, 1, cell, rest, None);
      assert printed[1..|printed| - 1] == DoubleQuotes(cell);
      HalvingUndoesDoubling(cell);
    } else {
      if s != "" {
        assert s[0] != '"' by {
          if cell == "" {
            assert s == rest;
          } else {
            assert s[0] == cell[0];
          }
        }
      }
      UntilCommaOf(cell, rest);
    }
  }

  // ----- one line

  lemma NextFieldRoundTrip(line: string, at: nat, cell: string, rest: string)
    requires at <= |line| && line[at..] == "," + (EscapeCell(cell) + rest)
    requires rest == "" || rest[0] == ','
    ensures
      var end := at + 1 + |EscapeCell(cell)|;
      NextField(line, at) == Some(Field(cell, end)) && end <= |line| && line[end..] == rest
  {
    var printed := EscapeCell(cell);
    var end := at + 1 + |printed|;
    var s := printed + rest;
    assert line[at] == line[at..][0] == ',';
    AfterComma(line, at, s);
    FieldRoundTrip(cell, rest);
    assert line[at + 1..end] == s[..|printed|] == printed;
    assert line[end..] == s[|printed|..] == rest;
  }

  lemma AfterComma(line: string, at: nat, s: string)
    requires at <= |line| && line[at..] == "," + s
    ensures at < |line| && line[at + 1..] == s && NextComma(line, at) == Some(at)
  {
    assert line[at] == line[at..][0];
    assert line[at + 1..] == line[at..][1..];
  }

  lemma TailOfCells(cells: seq<string>)
    requires cells != []
    ensures Tail(EscapeAll(cells), ',') == "," + EscapeCell(cells[0]) + Tail(EscapeAll(cells[1..]), ',')
    ensures Line(cells) == EscapeCell(cells[0]) + Tail(EscapeAll(cells[1..]), ',')
  {
    assert EscapeAll(cells)[1..] == EscapeAll(cells[1..]);
  }

  lemma TailStartsWithComma(cells: seq<string>)
    ensures var t := Tail(EscapeAll(cells), ','); t == "" || t[0] == ','
    ensures Tail(EscapeAll(cells), ',') == "" <==> cells == []
  {
    if cells != [] {
      TailOfCells(cells);
    }
  }

  /** What is left of the line from `at` on is the printed form of `cells`, each after a comma. */
  ghost predicate LeftToRead(line: string, at: nat, cells: seq<string>) {
    at <= |line| && line[at..] == Tail(EscapeAll(cells), ',')
  }

  lemma ReadOneMore(line: string, at: nat, cells: seq<string>) returns (end: nat)
    requires LeftToRead(line, at, cells) && cells != []
    ensures NextField(line, at) == Some(Field(cells[0], end)) && LeftToRead(line, end, cells[1..])
  {
    TailOfCells(cells);
    TailStartsWithComma(cells[1..]);
    assert line[at..] == "," + (EscapeCell(cells[0]) + Tail(EscapeAll(cells[1..]), ','));
    NextFieldRoundTrip(line, at, cells[0], Tail(EscapeAll(cells[1..]), ','));
    end := at + 1 + |EscapeCell(cells[0])|;
  }

  lemma ReadAll(line: string, at: nat)
    requires LeftToRead(line, at, [])
    ensures Values(line, at) == [] && LastEnd(line, at) == |line|
  {
    assert |line[at..]| == 0;
  }

  lemma {:induction false} FieldsRoundTrip(line: string, at: nat, cells: seq<string>)
    requires LeftToRead(line, at, cells)
    ensures Values(line, at) == cells && LastEnd(line, at) == |line|
    decreases |cells|
  {
    if cells == [] {
      ReadAll(line, at);
    } else {
      var end := ReadOneMore(line, at, cells);
      FieldsRoundTrip(line, end, cells[1..]);
    }
  }

  /** A printed line is read back cell by cell, with one empty cell more if it ends empty, unless it starts empty. */
  lemma LineRoundTrip(cells: seq<string>)
    requires cells != []
    ensures ParseLine(Line(cells)) ==
      if cells[0] == "" then None else Some(cells + if cells[|cells| - 1] == "" then [""] else [])
  {
    var line, printed := Line(cells), EscapeCell(cells[0]);
    LineStart(cells);
    if cells[0] != "" {
      FieldsRoundTrip(line, |printed|, cells[1..]);
      assert [cells[0]] + cells[1..] == cells;
      LastCharacter(cells);
    }
  }

  lemma LineStart(cells: seq<string>)
    requires cells != []
    ensures
      var line, n := Line(cells), |EscapeCell(cells[0])|;
      && FieldLength(line) == n && LeftToRead(line, n, cells[1..])
      && Value(line[..n]) == cells[0] && (n == 0 <==> cells[0] == "")
  {
    var printed := EscapeCell(cells[0]);
    var rest := Tail(EscapeAll(cells[1..]), ',');
    TailOfCells(cells);
    TailStartsWithComma(cells[1..]);
    FieldRoundTrip(cells[0], rest);
    assert (printed + rest)[..|printed|] == printed && (printed + rest)[|printed|..] == rest;
  }

  lemma {:induction false} LastOfTail(cells: seq<string>)
    requires cells != []
    ensures Tail(EscapeAll(cells), ',') != ""
    ensures
      var t := Tail(EscapeAll(cells), ',');
      var last := EscapeCell(cells[|cells| - 1]);
      t[|t| - 1] == if last == "" then ',' else last[|last| - 1]
  {
    assert EscapeAll(cells)[1..] == EscapeAll(cells[1..]);
    if |cells| > 1 {
      LastOfTail(cells[1..]);
      assert cells[1..][|cells| - 2] == cells[|cells| - 1];
    } else {
      assert Tail(EscapeAll(cells[1..]), ',') == "";
    }
  }

  /** A printed line, unless it is empty, ends with a comma exactly if its last cell is empty. */
  lemma LastCharacter(cells: seq<string>)
    requires |cells| > 1 || (|cells| == 1 && cells[0] != "")
    ensures Line(cells) != "" && (Line(cells)[|Line(cells)| - 1] == ',' <==> cells[|cells| - 1] == "")
    ensures cells[|cells| - 1] != "" ==> Line(cells)[|Line(cells)| - 1] == LastPrinted(cells[|cells| - 1])
  {
    assert EscapeAll(cells)[1..] == EscapeAll(cells[1..]);
    if |cells| > 1 {
      LastOfTail(cells[1..]);
      assert cells[1..][|cells| - 2] == cells[|cells| - 1];
    }
  }

  /** The last character of a printed non-empty cell. */
  function LastPrinted(cell: string): char
    requires cell != ""
  {
    if NeedsQuotes(cell) then '"' else cell[|cell| - 1]
  }

  // ----- the whole text

  ghost predicate OneLine(line: string) {
    '\n' !in line && (line == "" || line[|line| - 1] != '\r')
  }

  lemma {:induction false} FirstNewlineOf(line: string, rest: string)
    requires '\n' !in line
    ensures rest == "" ==> FirstNewline(line + rest) == None
    ensures rest != "" && rest[0] == '\n' ==> FirstNewline(line + rest) == Some(|line|)
  {
    if line == "" {
      assert line + rest == rest;
    } else {
      assert (line + rest)[1..] == line[1..] + rest;
      FirstNewlineOf(line[1..], rest);
    }
  }

  lemma {:induction false} SplittingUndoesJoining(lines: seq<string>)
    requires lines != [] && forall i :: 0 <= i < |lines| ==> OneLine(lines[i])
    ensures SplitLines(Join(lines, '\n')) == lines
    decreases |lines|
  {
    var text := Join(lines, '\n');
    var rest := Tail(lines[1..], '\n');
    assert OneLine(lines[0]);
    FirstNewlineOf(lines[0], rest);
    if |lines| == 1 {
      assert text == lines[0] + "" == lines[0];
    } else {
      assert rest == "\n" + lines[1] + Tail(lines[1..][1..], '\n');
      assert text[..|lines[0]|] == lines[0];
      assert text[|lines[0]| + 1..] == Join(lines[1..], '\n');
      SplittingUndoesJoining(lines[1..]);
      assert lines == [lines[0]] + lines[1..];
    }
  }

  lemma LineThenRest(line: string, rest: string)
    requires '\n' !in line
    ensures SplitLines(line + "\n" + rest) == [DropReturn(line)] + SplitLines(rest)
  {
    hide DropReturn;
    var text := line + "\n" + rest;
    FirstNewlineOf(line, "\n" + rest);
    assert line + ("\n" + rest) == text;
    assert text[..|line|] == line && text[|line| + 1..] == rest;
  }

  /** A line ends the same with a carriage return before the newline as without. */
  lemma EitherLineEnd(line: string, rest: string)
    requires OneLine(line)
    ensures SplitLines(line + "\n" + rest) == [line] + SplitLines(rest)
    ensures SplitLines(line + "\r\n" + rest) == [line] + SplitLines(rest)
  {
    hide SplitLines;
    LineThenRest(line, rest);
    LineThenRest(line + "\r", rest);
    assert line + "\r" + "\n" + rest == line + "\r\n" + rest;
    assert DropReturn(line + "\r") == line;
  }

  ghost predicate NoNewline(s: string) {
    '\n' !in s
  }

  lemma {:induction false} DoublingAddsNoNewline(s: string)
    ensures NoNewline(s) ==> NoNewline(DoubleQuotes(s))
  {
    if s == "" {
    } else {
      DoublingAddsNoNewline(s[1..]);
      assert s == [s[0]] + s[1..];
    }
  }

  lemma {:induction false} TailHasNoNewline(cells: seq<string>)
    requires forall i :: 0 <= i < |cells| ==> Clean(cells[i])
    ensures NoNewline(Tail(EscapeAll(cells), ','))
  {
    if cells == [] {
    } else {
      assert EscapeAll(cells)[1..] == EscapeAll(cells[1..]);
      DoublingAddsNoNewline(cells[0]);
      assert Clean(cells[0]);
      TailHasNoNewline(cells[1..]);
    }
  }

  lemma LineIsOneLine(cells: seq<string>)
    requires cells != [] && forall i :: 0 <= i < |cells| ==> Clean(cells[i])
    ensures OneLine(Line(cells))
  {
    assert EscapeAll(cells)[1..] == EscapeAll(cells[1..]);
    DoublingAddsNoNewline(cells[0]);
    assert Clean(cells[0]);
    TailHasNoNewline(cells[1..]);
    var last := cells[|cells| - 1];
    assert Clean(last);
    if last != "" {
      LastCharacter(cells);
    } else if |cells| > 1 {
      LastOfTail(cells[1..]);
      assert cells[1..][|cells| - 2] == last;
    }
  }

  /** A line is dropped as blank only if it has one cell and that cell is empty. */
  lemma LineIsBlankExactlyWhen(cells: seq<string>)
    requires cells != [] && Clean(cells[0])
    ensures Trim(Line(cells)) == "" <==> |cells| == 1 && cells[0] == ""
  {
    assert EscapeAll(cells)[1..] == EscapeAll(cells[1..]);
    var line := Line(cells);
    if |cells| == 1 && cells[0] == "" {
      assert line == "";
    } else {
      if cells[0] == "" {
        assert EscapeAll(cells[1..])[1..] == EscapeAll(cells[1..][1..]);
        assert line[0] == ',';
      }
      assert line != "" && !IsSpace(line[0]);
      TrimKeepsTheStart(line);
    }
  }

  lemma {:induction false} TrimEndKeepsTheStart(s: string)
    requires s != "" && !IsSpace(s[0])
    ensures TrimEnd(s) != ""
  {
    if IsSpace(s[|s| - 1]) {
      TrimEndKeepsTheStart(s[..|s| - 1]);
    }
  }

  lemma TrimKeepsTheStart(s: string)
    requires s != "" && !IsSpace(s[0])
    ensures Trim(s) != ""
  {
    TrimEndKeepsTheStart(s);
  }

  // ----- records

  ghost predicate Distinct(headers: seq<string>) {
    forall i, j :: 0 <= i < j < |headers| ==> headers[i] != headers[j]
  }

  /** A header row: non-empty distinct clean names. */
  ghost predicate GoodHeaders(headers: seq<string>) {
    headers != [] && Distinct(headers) && forall i :: 0 <= i < |headers| ==> Clean(headers[i]) && headers[i] != ""
  }

  /** The row has exactly these columns. */
  ghost predicate HasColumns(headers: seq<string>, row: Record) {
    forall h :: h in row <==> h in headers
  }

  ghost predicate CleanRow(row: Record) {
    forall h :: h in row ==> Clean(row[h])
  }

  ghost predicate GoodRow(headers: seq<string>, row: Record) {
    HasColumns(headers, row) && CleanRow(row)
  }

  predicate Names(headers: seq<string>, i: int, h: string) {
    0 <= i < |headers| && Trim(headers[i]) == h
  }

  /** A record has the columns its header row names, and no more. */
  lemma {:induction false} RecordKeys(headers: seq<string>, values: seq<string>)
    ensures forall h :: h in RecordOf(headers, values) <==> exists i :: Names(headers, i, h)
  {
    if |headers| == 0 {
    } else {
      hide Trim;
      var before := headers[..|headers| - 1];
      RecordKeys(before, values);
      forall h
        ensures h in RecordOf(headers, values) <==> exists i :: Names(headers, i, h)
      {
        assert h in RecordOf(headers, values) <==> Names(headers, |before|, h) || h in RecordOf(before, values);
        forall i | 0 <= i < |before|
          ensures Names(headers, i, h) <==> Names(before, i, h)
        {
        }
        if i :| Names(headers, i, h) && i != |before| {
          assert Names(before, i, h);
        }
        if i :| Names(before, i, h) {
          assert Names(headers, i, h);
        }
      }
    }
  }

  /** A column holds the trimmed value at its place, or nothing if the line is too short; the last of a name counts. */
  lemma {:induction false} RecordCell(headers: seq<string>, values: seq<string>, i: nat)
    requires i < |headers| && forall j :: i < j < |headers| ==> Trim(headers[j]) != Trim(headers[i])
    ensures Trim(headers[i]) in RecordOf(headers, values)
    ensures RecordOf(headers, values)[Trim(headers[i])] == if i < |values| then Trim(values[i]) else ""
  {
    hide Trim;
    var last := |headers| - 1;
    if i == last {
    } else {
      RecordCell(headers[..last], values, i);
    }
  }

  lemma {:induction false} RecordOfLine(headers: seq<string>, lines: seq<string>, k: nat)
    requires RecordsOf(headers, lines).Some? && k < |lines|
    ensures |RecordsOf(headers, lines).value| == |lines| && ParseLine(lines[k]).Some?
    ensures RecordsOf(headers, lines).value[k] == RecordOf(headers, ParseLine(lines[k]).value)
  {
    hide ParseLine, RecordOf;
    RecordCount(headers, lines);
    if k == 0 {
    } else {
      RecordOfLine(headers, lines[1..], k - 1);
    }
  }

  /**
   Whatever the text, if it has records at all: one for each line that is not blank, but for the first, which names
   their columns; and each cell is what its line holds at that place, trimmed, or empty where the line is too short.
   */
  lemma RecordsReadTheirLines(text: string, k: nat, i: nat)
    requires ParseCsv(text).Some? && k < |ParseCsv(text).value|
    ensures
      var lines := NonBlank(SplitLines(text));
      && |lines| == |ParseCsv(text).value| + 1 && ParseLine(lines[0]).Some? && ParseLine(lines[k + 1]).Some?
      && var headers, values := ParseLine(lines[0]).value, ParseLine(lines[k + 1]).value;
         var record := ParseCsv(text).value[k];
         && (forall h :: h in record <==> exists j :: Names(headers, j, h))
         && (i < |headers| && (forall j :: i < j < |headers| ==> !Names(headers, j, Trim(headers[i]))) ==>
               && Trim(headers[i]) in record
               && record[Trim(headers[i])] == if i < |values| then Trim(values[i]) else "")
  {
    hide SplitLines, NonBlank, ParseLine, RecordOf, Trim;
    var lines := NonBlank(SplitLines(text));
    var headers := ParseLine(lines[0]).value;
    RecordCount(headers, lines[1..]);
    RecordOfLine(headers, lines[1..], k);
    var values := ParseLine(lines[k + 1]).value;
    RecordKeys(headers, values);
    if i < |headers| && forall j :: i < j < |headers| ==> !Names(headers, j, Trim(headers[i])) {
      assert forall j :: i < j < |headers| ==> Trim(headers[j]) != Trim(headers[i]) by {
        forall j | i < j < |headers|
          ensures Trim(headers[j]) != Trim(headers[i])
        {
          assert !Names(headers, j, Trim(headers[i]));
        }
      }
      RecordCell(headers, values, i);
    }
  }

  lemma RowRoundTrip(headers: seq<string>, row: Record, values: seq<string>)
    requires GoodHeaders(headers) && GoodRow(headers, row)
    requires values == CellsOf(headers, row) || values == CellsOf(headers, row) + [""]
    ensures RecordOf(headers, values) == row
  {
    hide RecordOf, Trim, Clean;
    HeadersAreTrimmed(headers);
    RecordKeys(headers, values);
    forall h
      ensures h in headers <==> exists i :: Names(headers, i, h)
    {
      if h in headers {
        var i :| 0 <= i < |headers| && headers[i] == h;
        assert Names(headers, i, h);
      }
    }
    forall h | h in headers
      ensures RecordOf(headers, values)[h] == row[h]
    {
      var i :| 0 <= i < |headers| && headers[i] == h;
      RecordCell(headers, values, i);
      assert values[i] == CellsOf(headers, row)[i] == row[h];
      CleanIsUnchanged(row[h]);
    }
  }

  lemma HeadersAreTrimmed(headers: seq<string>)
    requires GoodHeaders(headers)
    ensures forall i :: 0 <= i < |headers| ==> Trim(headers[i]) == headers[i]
  {
    forall i | 0 <= i < |headers|
      ensures Trim(headers[i]) == headers[i]
    {
      TrimmedIsUnchanged(headers[i]);
    }
  }

  lemma CleanIsUnchanged(cell: string)
    requires Clean(cell)
    ensures Trim(cell) == cell
  {
    TrimmedIsUnchanged(cell);
  }

  /** The rows whose first cell has something in it. */
  predicate FirstCellsFilled(headers: seq<string>, rows: seq<Record>)
    requires headers != []
  {
    forall i :: 0 <= i < |rows| ==> CellsOf(headers, rows[i])[0] != ""
  }

  function RowLines(headers: seq<string>, rows: seq<Record>): seq<string> {
    seq(|rows|, i requires 0 <= i < |rows| => Line(CellsOf(headers, rows[i])))
  }

  lemma RowCellsAreClean(headers: seq<string>, row: Record)
    requires GoodHeaders(headers) && GoodRow(headers, row)
    ensures CellsOf(headers, row) != [] && forall i :: 0 <= i < |headers| ==> Clean(CellsOf(headers, row)[i])
  {
    forall i | 0 <= i < |headers|
      ensures Clean(CellsOf(headers, row)[i])
    {
      assert headers[i] in headers;
    }
  }

  /** One printed row: read back, dropped as blank, or hanging the parser. */
  lemma OneRowRoundTrip(headers: seq<string>, row: Record)
    requires GoodHeaders(headers) && GoodRow(headers, row)
    ensures
      var cells := CellsOf(headers, row);
      var parsed := ParseLine(Line(cells));
      && cells != []
      && (Trim(Line(cells)) == "" <==> |headers| == 1 && cells[0] == "")
      && (cells[0] == "" ==> parsed == None)
      && (cells[0] != "" ==> parsed.Some? && RecordOf(headers, parsed.value) == row)
  {
    var cells := CellsOf(headers, row);
    RowCellsAreClean(headers, row);
    LineIsBlankExactlyWhen(cells);
    LineRoundTrip(cells);
    if cells[0] != "" {
      RowRoundTrip(headers, row, ParseLine(Line(cells)).value);
    }
  }

  lemma FirstCellsOfRest(headers: seq<string>, rows: seq<Record>)
    requires headers != [] && rows != []
    ensures FirstCellsFilled(headers, rows) <==>
      CellsOf(headers, rows[0])[0] != "" && FirstCellsFilled(headers, rows[1..])
  {
    assert forall i :: 1 <= i < |rows| ==> rows[i] == rows[1..][i - 1];
  }

  lemma NonBlankOfRows(headers: seq<string>, rows: seq<Record>)
    requires rows != []
    ensures
      var line := Line(CellsOf(headers, rows[0]));
      NonBlank(RowLines(headers, rows))
      == (if Trim(line) != "" then [line] else []) + NonBlank(RowLines(headers, rows[1..]))
  {
    assert RowLines(headers, rows)[1..] == RowLines(headers, rows[1..]);
  }

  lemma RecordsOfCons(headers: seq<string>, line: string, lines: seq<string>)
    ensures RecordsOf(headers, [line] + lines) ==
      if ParseLine(line).None? || RecordsOf(headers, lines).None? then None
      else Some([RecordOf(headers, ParseLine(line).value)] + RecordsOf(headers, lines).value)
  {
    assert ([line] + lines)[1..] == lines;
  }

  /** Every row comes back, or an empty first cell makes parsing hang or (alone on its line) loses the row. */
  ghost predicate RowsOutcome(headers: seq<string>, rows: seq<Record>, lines: seq<string>)
    requires headers != []
  {
    && |lines| <= |rows|
    && (FirstCellsFilled(headers, rows) ==> |lines| == |rows| && RecordsOf(headers, lines) == Some(rows))
    && (!FirstCellsFilled(headers, rows) && |headers| == 1 ==> |lines| < |rows|)
    && (!FirstCellsFilled(headers, rows) && |headers| > 1 ==> lines != [] && RecordsOf(headers, lines) == None)
  }

  lemma FilledRowExtends(headers: seq<string>, row: Record, rows: seq<Record>, line: string, rest: seq<string>)
    requires headers != [] && RowsOutcome(headers, rows, rest)
    requires CellsOf(headers, row)[0] != ""
    requires ParseLine(line).Some? && RecordOf(headers, ParseLine(line).value) == row
    ensures RowsOutcome(headers, [row] + rows, [line] + rest)
  {
    assert ([row] + rows)[1..] == rows;
    FirstCellsOfRest(headers, [row] + rows);
    RecordsOfCons(headers, line, rest);
  }

  lemma EmptyRowExtends(headers: seq<string>, row: Record, rows: seq<Record>, line: string, rest: seq<string>)
    requires headers != [] && RowsOutcome(headers, rows, rest)
    requires CellsOf(headers, row)[0] == "" && ParseLine(line) == None
    ensures RowsOutcome(headers, [row] + rows, if |headers| == 1 then rest else [line] + rest)
  {
    assert ([row] + rows)[1..] == rows;
    FirstCellsOfRest(headers, [row] + rows);
    RecordsOfCons(headers, line, rest);
  }

  lemma OneMoreRow(headers: seq<string>, row: Record, rows: seq<Record>)
    requires GoodHeaders(headers) && GoodRow(headers, row)
    requires RowsOutcome(headers, rows, NonBlank(RowLines(headers, rows)))
    ensures RowsOutcome(headers, [row] + rows, NonBlank(RowLines(headers, [row] + rows)))
  {
    var line := Line(CellsOf(headers, row));
    var rest := NonBlank(RowLines(headers, rows));
    OneRowRoundTrip(headers, row);
    assert ([row] + rows)[1..] == rows && ([row] + rows)[0] == row;
    NonBlankOfRows(headers, [row] + rows);
    assert [] + rest == rest;
    if CellsOf(headers, row)[0] != "" {
      FilledRowExtends(headers, row, rows, line, rest);
    } else {
      EmptyRowExtends(headers, row, rows, line, rest);
    }
  }

  lemma NoRows(headers: seq<string>)
    requires GoodHeaders(headers)
    ensures RowsOutcome(headers, [], NonBlank(RowLines(headers, [])))
  {
  }

  lemma {:induction false} RowsRoundTrip(headers: seq<string>, rows: seq<Record>)
    requires GoodHeaders(headers)
    requires forall i :: 0 <= i < |rows| ==> GoodRow(headers, rows[i])
    ensures RowsOutcome(headers, rows, NonBlank(RowLines(headers, rows)))
    decreases |rows|
  {
    hide *;
    if rows == [] {
      NoRows(headers);
    } else {
      RowsRoundTrip(headers, rows[1..]);
      OneMoreRow(headers, rows[0], rows[1..]);
      assert [rows[0]] + rows[1..] == rows;
    }
  }

  lemma PrintedLinesAreLines(headers: seq<string>, rows: seq<Record>)
    requires GoodHeaders(headers)
    requires forall i :: 0 <= i < |rows| ==> GoodRow(headers, rows[i])
    ensures forall i :: 0 <= i < |Lines(headers, rows)| ==> OneLine(Lines(headers, rows)[i])
  {
    LineIsOneLine(headers);
    forall i | 0 <= i < |rows|
      ensures OneLine(Line(CellsOf(headers, rows[i])))
    {
      RowCellsAreClean(headers, rows[i]);
      LineIsOneLine(CellsOf(headers, rows[i]));
    }
  }

  lemma PrintedTextSplits(headers: seq<string>, rows: seq<Record>)
    requires GoodHeaders(headers) && rows != []
    requires forall i :: 0 <= i < |rows| ==> GoodRow(headers, rows[i])
    ensures NonBlank(SplitLines(RowsToCsv(headers, rows))) == [Line(headers)] + NonBlank(RowLines(headers, rows))
  {
    var lines := Lines(headers, rows);
    PrintedLinesAreLines(headers, rows);
    SplittingUndoesJoining(lines);
    LineIsBlankExactlyWhen(headers);
    assert lines[1..] == RowLines(headers, rows);
  }

  lemma CleanRowsRoundTrip(headers: seq<string>, rows: seq<Record>)
    requires GoodHeaders(headers)
    requires forall i :: 0 <= i < |rows| ==> GoodRow(headers, rows[i])
    ensures ParseCsv(RowsToCsv(headers, rows)) == Some(rows) <==> FirstCellsFilled(headers, rows)
  {
    if rows == [] {
      assert SplitLines("") == [""] && Trim("") == "";
    } else {
      PrintedTextSplits(headers, rows);
      RowsRoundTrip(headers, rows);
      var rest := NonBlank(RowLines(headers, rows));
      HeaderParses(headers, rest);
      RecordCount(headers, rest);
    }
  }

  // ----- the parser returns clean cells only

  lemma TrimmingCleans(s: string)
    requires NoNewline(s)
    ensures Clean(Trim(s))
  {
    var a, b := TrimSplits(s);
    assert forall c :: c in Trim(s) ==> c in a + Trim(s) + b;
  }

  lemma {:induction false} HalvingAddsNothing(s: string)
    ensures forall c :: c in HalveQuotes(s) ==> c in s
  {
    if s == "" {
    } else if |s| >= 2 && s[0] == '"' && s[1] == '"' {
      HalvingAddsNothing(s[2..]);
    } else {
      HalvingAddsNothing(s[1..]);
    }
  }

  lemma ValueAddsNothing(raw: string)
    ensures forall c :: c in Value(raw) ==> c in raw
  {
    if |raw| >= 2 {
      HalvingAddsNothing(raw[1..|raw| - 1]);
    }
  }

  lemma {:induction false} ValuesHaveNoNewline(line: string, at: nat)
    requires at <= |line| && NoNewline(line)
    ensures forall v :: v in Values(line, at) ==> NoNewline(v)
    decreases |line| - at
  {
    hide FieldLength, Value;
    match NextField(line, at)
    case None =>
    case Some(f) =>
      var i := NextComma(line, at).value;
      ValueAddsNothing(line[i + 1..f.end]);
      ValuesHaveNoNewline(line, f.end);
  }

  lemma ParsedLineHasNoNewline(line: string)
    requires NoNewline(line)
    ensures ParseLine(line).Some? ==> forall v :: v in ParseLine(line).value ==> NoNewline(v)
  {
    var n := FieldLength(line);
    ValueAddsNothing(line[..n]);
    ValuesHaveNoNewline(line, n);
  }

  lemma {:induction false} RecordIsClean(headers: seq<string>, values: seq<string>)
    requires forall v :: v in values ==> NoNewline(v)
    ensures CleanRow(RecordOf(headers, values))
  {
    if |headers| == 0 {
    } else {
      hide Trim, Clean, NoNewline;
      EmptyIsClean();
      var i := |headers| - 1;
      RecordIsClean(headers[..i], values);
      if i < |values| {
        TrimmingCleans(values[i]);
      }
    }
  }

  lemma EmptyIsClean()
    ensures Clean("")
  {
  }

  lemma {:induction false} RecordsAreClean(headers: seq<string>, lines: seq<string>)
    requires forall line :: line in lines ==> NoNewline(line)
    ensures RecordsOf(headers, lines).Some? ==> forall r :: r in RecordsOf(headers, lines).value ==> CleanRow(r)
  {
    if lines == [] {
    } else {
      hide NoNewline, CleanRow, ParseLine, RecordOf;
      RecordsAreClean(headers, lines[1..]);
      ParsedLineHasNoNewline(lines[0]);
      if ParseLine(lines[0]).Some? {
        RecordIsClean(headers, ParseLine(lines[0]).value);
      }
    }
  }

  lemma {:induction false} NoneBeforeTheFirst(text: string)
    ensures FirstNewline(text).None? ==> NoNewline(text)
    ensures FirstNewline(text).Some? ==> NoNewline(text[..FirstNewline(text).value])
  {
    if text == "" {
    } else if text[0] == '\n' {
    } else {
      NoneBeforeTheFirst(text[1..]);
      if FirstNewline(text).Some? {
        var i := FirstNewline(text).value;
        assert text[..i] == [text[0]] + text[1..][..i - 1];
      }
    }
  }

  lemma {:induction false} LinesHaveNoNewline(text: string)
    ensures forall line :: line in SplitLines(text) ==> NoNewline(line)
    decreases |text|
  {
    NoneBeforeTheFirst(text);
    match FirstNewline(text)
    case None =>
    case Some(i) => LinesHaveNoNewline(text[i + 1..]);
  }

  lemma {:induction false} NonBlankIsAmong(lines: seq<string>)
    ensures forall line :: line in NonBlank(lines) ==> line in lines
  {
    if lines == [] {
    } else {
      NonBlankIsAmong(lines[1..]);
    }
  }

  /** Whatever the text, every cell that comes back is trimmed and holds no newline. */
  lemma ParsedRowsAreClean(text: string)
    ensures ParseCsv(text).Some? ==> forall r :: r in ParseCsv(text).value ==> CleanRow(r)
  {
    hide NoNewline, CleanRow, SplitLines, NonBlank, RecordsOf, ParseLine;
    LinesHaveNoNewline(text);
    NonBlankIsAmong(SplitLines(text));
    var lines := NonBlank(SplitLines(text));
    if |lines| >= 2 && ParseLine(lines[0]).Some? {
      RecordsAreClean(ParseLine(lines[0]).value, lines[1..]);
    }
  }

  ghost predicate AllClean(rows: seq<Record>) {
    forall i :: 0 <= i < |rows| ==> CleanRow(rows[i])
  }

  /**
   Exporting and importing gives the rows back exactly when no cell holds a newline or surrounding white space and the
   first cell of every row has something in it; commas and quotes inside the cells do not matter.
   */
  lemma RoundTripExactlyWhen(headers: seq<string>, rows: seq<Record>)
    requires GoodHeaders(headers)
    requires forall i :: 0 <= i < |rows| ==> HasColumns(headers, rows[i])
    ensures ParseCsv(RowsToCsv(headers, rows)) == Some(rows) <==> AllClean(rows) && FirstCellsFilled(headers, rows)
  {
    hide ParseCsv, RowsToCsv, GoodHeaders, HasColumns, CleanRow;
    if AllClean(rows) {
      BothMakeGood(headers, rows);
      CleanRowsRoundTrip(headers, rows);
    } else {
      ParsedRowsAreClean(RowsToCsv(headers, rows));
    }
  }

  lemma BothMakeGood(headers: seq<string>, rows: seq<Record>)
    requires AllClean(rows) && forall i :: 0 <= i < |rows| ==> HasColumns(headers, rows[i])
    ensures forall i :: 0 <= i < |rows| ==> GoodRow(headers, rows[i])
  {
  }

  lemma HeaderParses(headers: seq<string>, rest: seq<string>)
    requires GoodHeaders(headers)
    ensures ParseLines([Line(headers)] + rest) == if rest == [] then Some([]) else RecordsOf(headers, rest)
  {
    hide ParseLine, Line, RecordsOf;
    LineRoundTrip(headers);
    assert headers[0] != "" && headers[|headers| - 1] != "";
    assert headers + [] == headers;
    assert ([Line(headers)] + rest)[1..] == rest;
  }

  lemma {:induction false} RecordCount(headers: seq<string>, lines: seq<string>)
    ensures RecordsOf(headers, lines).Some? ==> |RecordsOf(headers, lines).value| == |lines|
  {
    if lines == [] {
    } else {
      RecordCount(headers, lines[1..]);
    }
  }

  /** The parser: split, drop blank lines, read the header, then one record per line. */
  method ParseCsvToRows(text: string) returns (records: Option<seq<Record>>)
    ensures records == ParseCsv(text)
  {
    var lines := NonBlank(SplitLines(text));
    if |lines| < 2 {
      return Some([]);
    }
    var headers := ParseRow(lines[0]);
    if headers.None? {
      return None;
    }
    var out: seq<Record> := [];
    ghost var goal := RecordsOf(headers.value, lines[1..]);
    var rest := lines[1..];
    PrependNothing(goal);
    while rest != []
      invariant goal == Prepend(out, RecordsOf(headers.value, rest))
      decreases |rest|
    {
      var values := ParseRow(rest[0]);
      if values.None? {
        return None;
      }
      var r := RecordOf(headers.value, values.value);
      PrependOne(out, r, RecordsOf(headers.value, rest[1..]));
      out := out + [r];
      rest := rest[1..];
    }
    assert out + [] == out;
    return Some(out);
  }

  function Prepend(out: seq<Record>, rest: Option<seq<Record>>): Option<seq<Record>> {
    match rest
    case None => None
    case Some(records) => Some(out + records)
  }

  lemma PrependNothing(rest: Option<seq<Record>>)
    ensures Prepend([], rest) == rest
  {
    if rest.Some? {
      assert [] + rest.value == rest.value;
    }
  }

  lemma PrependOne(out: seq<Record>, r: Record, rest: Option<seq<Record>>)
    ensures Prepend(out, Prepend([r], rest)) == Prepend(out + [r], rest)
  {
    if rest.Some? {
      assert out + ([r] + rest.value) == out + [r] + rest.value;
    }
  }
}
