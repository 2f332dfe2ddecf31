/** The documented table of a command's JSON output: a fenced markdown table, parsed with escapes,
    and the printer it is the inverse of. */
module DocTable {
  import opened Prelude
  import opened Text

  /** A documented field; a trailing `?` in the table marks it optional. `line` counts from 1. */
  datatype DocRow = DocRow(field: string, typ: string, description: string, line: nat, optional: bool)

  /** Why a table cannot be read, with the lines the message names, counted from 1. */
  datatype ParseError =
    | DuplicateBegin(first: nat, again: nat) | DuplicateEnd(first: nat, again: nat)
    | NoBlock | EndBeforeBegin(end: nat, begin: nat)
    | BadHeader(line: nat) | BadRow(line: nat) | NoHeader

  predicate AreColumns(cells: seq<string>) {
    |cells| == 3 && cells[0] == "Field" && cells[1] == "Type" && cells[2] == "Description"
  }

  function TableBegin(cmd: string): string {
    "<!-- cli-json:" + cmd + ":begin -->"
  }

  function TableEnd(cmd: string): string {
    "<!-- cli-json:" + cmd + ":end -->"
  }

  // ----- cells -----

  /** Split at unescaped pipes; a backslash makes the next character literal. */
  function Parts(s: string, cur: string, escaped: bool): (parts: seq<string>)
    ensures parts != []
  {
    if s == "" then [cur]
    else if escaped then Parts(s[1..], cur + [s[0]], false)
    else if s[0] == '\\' then Parts(s[1..], cur, true)
    else if s[0] == '|' then [cur] + Parts(s[1..], "", false)
    else Parts(s[1..], cur + [s[0]], false)
  }

  function TrimAll(parts: seq<string>): (cells: seq<string>)
    ensures |cells| == |parts| && forall i :: 0 <= i < |parts| ==> cells[i] == TrimSpace(parts[i])
  {
    seq(|parts|, i requires 0 <= i < |parts| => TrimSpace(parts[i]))
  }

  function SplitRow(line: string): seq<string> {
    TrimAll(Parts(TrimSuffix(TrimPrefix(TrimSpace(line), '|'), '|'), "", false))
  }

  method UnescapedParts(s: string) returns (parts: seq<string>)
    ensures parts == Parts(s, "", false)
  {
    parts := [];
    var cur, escaped := "", false;
    for i := 0 to |s|
      invariant Parts(s, "", false) == parts + Parts(s[i..], cur, escaped)
    {
      var r := s[i];
      assert s[i..][0] == r && s[i..][1..] == s[i + 1..];
      if escaped {
        cur := cur + [r];
        escaped := false;
      } else if r == '\\' {
        escaped := true;
      } else if r == '|' {
        parts := parts + [cur];
        cur := "";
      } else {
        cur := cur + [r];
      }
    }
    parts := parts + [cur];
  }

  method SplitCLIJSONRow(line: string) returns (cells: seq<string>)
    ensures cells == SplitRow(line)
  {
    var parts := UnescapedParts(TrimSuffix(TrimPrefix(TrimSpace(line), '|'), '|'));
    cells := [];
    for i := 0 to |parts|
      invariant cells == TrimAll(parts)[..i]
    {
      cells := cells + [TrimSpace(parts[i])];
    }
  }

  predicate InSeparator(c: char) {
    c == '-' || c == ':' || c == ' '
  }

  predicate IsSeparatorRow(cells: seq<string>) {
    cells == [] || (Trim(cells[0], InSeparator) == "" && IsSeparatorRow(cells[1..]))
  }

  predicate IsBacktick(c: char) {
    c == '`'
  }

  /** The name and the optional mark of a field cell. */
  function FieldOf(cell: string): (string, bool) {
    var name := Trim(cell, IsBacktick);
    (TrimSuffix(name, '?'), name != "" && name[|name| - 1] == '?')
  }

  // ----- the block -----

  type Markers = (Option<nat>, Option<nat>)

  /** Where the markers are among the first `k` lines: each at most once. */
  function MarkersUpTo(trim: string -> string, lines: seq<string>, k: nat, begin: string,
                       end: string): Result<Markers, ParseError>
    requires k <= |lines|
  {
    if k == 0 then Ok((None, None))
    else
      match MarkersUpTo(trim, lines, k - 1, begin, end)
      case Err(e) => Err(e)
      case Ok((b, e)) =>
        var line := trim(lines[k - 1]);
        if line == begin then
          (if b.Some? then Err(DuplicateBegin(b.value + 1, k)) else Ok((Some((k - 1) as nat), e)))
        else if line == end then
          (if e.Some? then Err(DuplicateEnd(e.value + 1, k)) else Ok((b, Some((k - 1) as nat))))
        else Ok((b, e))
  }

  function FindMarkers(lines: seq<string>, begin: string, end: string): Result<Markers, ParseError> {
    MarkersUpTo(TrimSpace, lines, |lines|, begin, end)
  }

  /** What one line of the document is to the table: prose, or cells that may name the columns, may be
      a rule, and may be three fields. */
  datatype Line = Prose | Cells(columns: bool, rule: bool, fields: Option<Fields>)

  datatype Fields = Fields(field: string, typ: string, description: string, optional: bool)

  function Judge(text: string): Line {
    var line := TrimSpace(text);
    if !("|" <= line) then Prose
    else
      var cells := SplitRow(line);
      Cells(AreColumns(cells), IsSeparatorRow(cells), if |cells| == 3 then Some(FieldsOf(cells)) else None)
  }

  function FieldsOf(cells: seq<string>): Fields
    requires |cells| == 3
  {
    Fields(FieldOf(cells[0]).0, cells[1], cells[2], FieldOf(cells[0]).1)
  }

  /** What a table has given so far: whether its header was seen, and its rows. */
  datatype Reading = Reading(header: bool, rows: seq<DocRow>)

  const NOTHING := Reading(false, [])

  function Step(r: Reading, line: Line, number: nat): Result<Reading, ParseError> {
    if line.Prose? then Ok(r)
    else if !r.header then (if line.columns then Ok(Reading(true, r.rows)) else Err(BadHeader(number)))
    else if line.rule then Ok(r)
    else if line.fields.None? then Err(BadRow(number))
    else Ok(Reading(true, r.rows + [RowOf(line.fields.value, number)]))
  }

  /** Read the lines from `start` to `stop`, stopping at the first error. */
  function ReadRows(judge: string -> Line, lines: seq<string>, start: nat, stop: nat): Result<Reading, ParseError>
    requires start <= stop <= |lines|
    decreases stop
  {
    if start == stop then Ok(NOTHING)
    else
      match ReadRows(judge, lines, start, stop - 1)
      case Err(e) => Err(e)
      case Ok(r) => Step(r, judge(lines[stop - 1]), stop)
  }

  function RowOf(f: Fields, line: nat): DocRow {
    DocRow(f.field, f.typ, f.description, line, f.optional)
  }

  function Outcome(r: Result<Reading, ParseError>): Result<seq<DocRow>, ParseError> {
    match r
    case Err(e) => Err(e)
    case Ok(reading) => if reading.header then Ok(reading.rows) else Err(NoHeader)
  }

  /** The parse of what lies between the markers. */
  function ParseBlock(judge: string -> Line, lines: seq<string>, b: nat, e: nat): Result<seq<DocRow>, ParseError>
    requires b != e && b < |lines| && e < |lines|
  {
    if e < b then Err(EndBeforeBegin(e + 1, b + 1)) else Outcome(ReadRows(judge, lines, b + 1, e))
  }

  function ParseWith(judge: string -> Line, lines: seq<string>, cmd: string): Result<seq<DocRow>, ParseError> {
    match FindMarkers(lines, TableBegin(cmd), TableEnd(cmd))
    case Err(e) => Err(e)
    case Ok((b, e)) =>
      if b.None? || e.None? then Err(NoBlock)
      else
        MarkersApart(lines, cmd);
        ParseBlock(judge, lines, b.value, e.value)
  }

  function ParseDoc(lines: seq<string>, cmd: string): Result<seq<DocRow>, ParseError> {
    ParseWith(Judge, lines, cmd)
  }

  lemma {:induction false} MarkersInRange(trim: string -> string, lines: seq<string>, k: nat, begin: string,
                                          end: string)
    requires k <= |lines| && begin != end && MarkersUpTo(trim, lines, k, begin, end).Ok?
    ensures var (b, e) := MarkersUpTo(trim, lines, k, begin, end).value;
      && (b.Some? ==> b.value < k && trim(lines[b.value]) == begin)
      && (e.Some? ==> e.value < k && trim(lines[e.value]) == end)
      && (forall i :: 0 <= i < k && trim(lines[i]) == begin ==> b == Some(i))
      && (forall i :: 0 <= i < k && trim(lines[i]) == end ==> e == Some(i))
  {
    if k > 0 { MarkersInRange(trim, lines, k - 1, begin, end); }
  }

  /** Line `i` reads as the marker. */
  predicate Marks(trim: string -> string, lines: seq<string>, i: nat, marker: string) {
    i < |lines| && trim(lines[i]) == marker
  }

  /** The marker is on at most one of the first `k` lines. */
  ghost predicate AtMostOnce(trim: string -> string, lines: seq<string>, k: nat, marker: string) {
    forall i, j :: 0 <= i < j < k && Marks(trim, lines, i, marker) ==> !Marks(trim, lines, j, marker)
  }

  /** Line `again` is the first repetition of the marker, and repeats line `first`. */
  ghost predicate FirstRepeat(trim: string -> string, lines: seq<string>, marker: string, first: nat, again: nat) {
    && first < again && AtMostOnce(trim, lines, again, marker)
    && Marks(trim, lines, first, marker) && Marks(trim, lines, again, marker)
  }

  lemma OnceMore(trim: string -> string, lines: seq<string>, k: nat, marker: string)
    ensures AtMostOnce(trim, lines, k + 1, marker) <==>
      && AtMostOnce(trim, lines, k, marker)
      && (Marks(trim, lines, k, marker) ==> forall i :: 0 <= i < k ==> !Marks(trim, lines, i, marker))
  {
  }

  /** The search fails exactly when a marker is repeated, and its error names the two lines of the
      first repetition. */
  lemma {:induction false} RepeatsAreNamed(trim: string -> string, lines: seq<string>, k: nat, begin: string,
                                           end: string)
    requires k <= |lines| && begin != end
    ensures var r := MarkersUpTo(trim, lines, k, begin, end);
      && (r.Ok? <==> AtMostOnce(trim, lines, k, begin) && AtMostOnce(trim, lines, k, end))
      && (r.Err? ==> RepeatNamed(trim, lines, begin, end, r.error))
  {
    if k > 0 {
      RepeatsAreNamed(trim, lines, k - 1, begin, end);
      OnceMore(trim, lines, k - 1, begin);
      OnceMore(trim, lines, k - 1, end);
      if MarkersUpTo(trim, lines, k - 1, begin, end).Ok? { OneMoreMarker(trim, lines, k - 1, begin, end); }
    }
  }

  ghost predicate RepeatNamed(trim: string -> string, lines: seq<string>, begin: string, end: string, e: ParseError) {
    match e
    case DuplicateBegin(first, again) => 0 < first < again && FirstRepeat(trim, lines, begin, first - 1, again - 1)
    case DuplicateEnd(first, again) => 0 < first < again && FirstRepeat(trim, lines, end, first - 1, again - 1)
    case _ => false
  }

  lemma OneMoreMarker(trim: string -> string, lines: seq<string>, k: nat, begin: string, end: string)
    requires k < |lines| && begin != end && MarkersUpTo(trim, lines, k, begin, end).Ok?
    requires AtMostOnce(trim, lines, k, begin) && AtMostOnce(trim, lines, k, end)
    ensures var r := MarkersUpTo(trim, lines, k + 1, begin, end);
      && (r.Err? <==> exists i :: 0 <= i < k && trim(lines[k]) in {begin, end} && Marks(trim, lines, i, trim(lines[k])))
      && (r.Err? ==> RepeatNamed(trim, lines, begin, end, r.error))
  {
    MarkersInRange(trim, lines, k, begin, end);
    var (b, e) := MarkersUpTo(trim, lines, k, begin, end).value;
    var line := trim(lines[k]);
    if line == begin && b.Some? { assert Marks(trim, lines, b.value, line); }
    if line == end && e.Some? { assert Marks(trim, lines, e.value, line); }
  }

  method FindBlock(lines: seq<string>, begin: string, end: string) returns (r: Result<Markers, ParseError>)
    ensures r == FindMarkers(lines, begin, end)
  {
    var beginLine: Option<nat>, endLine: Option<nat> := None, None;
    for i := 0 to |lines|
      invariant MarkersUpTo(TrimSpace, lines, i, begin, end) == Ok((beginLine, endLine))
    {
      var l := TrimSpace(lines[i]);
      if l == begin {
        if beginLine.Some? {
          ErrorStays(TrimSpace, lines, i + 1, |lines|, begin, end);
          return Err(DuplicateBegin(beginLine.value + 1, i + 1));
        }
        beginLine := Some(i);
      } else if l == end {
        if endLine.Some? {
          ErrorStays(TrimSpace, lines, i + 1, |lines|, begin, end);
          return Err(DuplicateEnd(endLine.value + 1, i + 1));
        }
        endLine := Some(i);
      }
    }
    r := Ok((beginLine, endLine));
  }

  method ReadLine(r: Reading, text: string, number: nat) returns (next: Result<Reading, ParseError>)
    ensures next == Step(r, Judge(text), number)
  {
    var line := TrimSpace(text);
    if !("|" <= line) { return Ok(r); }
    var cells := SplitCLIJSONRow(line);
    if !r.header {
      if !AreColumns(cells) { return Err(BadHeader(number)); }
      return Ok(Reading(true, r.rows));
    }
    if IsSeparatorRow(cells) { return Ok(r); }
    if |cells| != 3 { return Err(BadRow(number)); }
    next := Ok(Reading(true, r.rows + [RowOf(FieldsOf(cells), number)]));
  }

  /** The lines from `start` to `i` gave this reading. */
  ghost predicate HaveRead(judge: string -> Line, lines: seq<string>, start: nat, i: nat, r: Reading) {
    start <= i <= |lines| && ReadRows(judge, lines, start, i) == Ok(r)
  }

  lemma NothingRead(judge: string -> Line, lines: seq<string>, start: nat)
    requires start <= |lines|
    ensures HaveRead(judge, lines, start, start, NOTHING)
  {
  }

  method ReadNext(lines: seq<string>, start: nat, i: nat, stop: nat, r: Reading)
    returns (next: Result<Reading, ParseError>)
    requires i < stop <= |lines| && HaveRead(Judge, lines, start, i, r)
    ensures next.Ok? ==> HaveRead(Judge, lines, start, i + 1, next.value)
    ensures next.Err? ==> ReadRows(Judge, lines, start, stop) == next
  {
    next := ReadLine(r, lines[i], i + 1);
    OneLine(Judge, lines, start, i, stop, r);
  }

  method ReadBlock(lines: seq<string>, start: nat, stop: nat) returns (r: Result<Reading, ParseError>)
    requires start <= stop <= |lines|
    ensures r == ReadRows(Judge, lines, start, stop)
  {
    var reading := NOTHING;
    NothingRead(Judge, lines, start);
    for i := start to stop
      invariant HaveRead(Judge, lines, start, i, reading)
    {
      var next := ReadNext(lines, start, i, stop, reading);
      if next.Err? { return next; }
      reading := next.value;
    }
    r := Ok(reading);
  }

  method ParseCLIJSONDocTable(md: string, cmd: string) returns (r: Result<seq<DocRow>, ParseError>)
    ensures r == ParseDoc(Lines(md), cmd)
  {
    var lines := Lines(md);
    var markers := FindBlock(lines, TableBegin(cmd), TableEnd(cmd));
    if markers.Err? { return Err(markers.error); }
    var beginLine, endLine := markers.value.0, markers.value.1;
    if beginLine.None? || endLine.None? { return Err(NoBlock); }
    if endLine.value < beginLine.value { return Err(EndBeforeBegin(endLine.value + 1, beginLine.value + 1)); }
    MarkersApart(lines, cmd);
    var table := ReadBlock(lines, beginLine.value + 1, endLine.value);
    if table.Err? { return Err(table.error); }
    if !table.value.header { return Err(NoHeader); }
    r := Ok(table.value.rows);
  }

  /** The two markers never share a line, so a block that is not backwards has room to be read. */
  lemma MarkersApart(lines: seq<string>, cmd: string)
    requires FindMarkers(lines, TableBegin(cmd), TableEnd(cmd)).Ok?
    ensures var (b, e) := FindMarkers(lines, TableBegin(cmd), TableEnd(cmd)).value;
      b.Some? && e.Some? ==> b.value != e.value && b.value < |lines| && e.value < |lines|
  {
    MarkersDiffer(cmd);
    MarkersInRange(TrimSpace, lines, |lines|, TableBegin(cmd), TableEnd(cmd));
  }

  lemma {:induction false} ErrorStays(trim: string -> string, lines: seq<string>, k: nat, n: nat, begin: string,
                                      end: string)
    requires k <= n <= |lines| && MarkersUpTo(trim, lines, k, begin, end).Err?
    ensures MarkersUpTo(trim, lines, n, begin, end) == MarkersUpTo(trim, lines, k, begin, end)
  {
    if k < n { ErrorStays(trim, lines, k, n - 1, begin, end); }
  }

  /** One more line: the reading so far, or the error it ends in. */
  lemma OneLine(judge: string -> Line, lines: seq<string>, start: nat, i: nat, stop: nat, r: Reading)
    requires start <= i < stop <= |lines| && ReadRows(judge, lines, start, i) == Ok(r)
    ensures var next := Step(r, judge(lines[i]), i + 1);
      && ReadRows(judge, lines, start, i + 1) == next
      && (next.Err? ==> ReadRows(judge, lines, start, stop) == next)
  {
    if Step(r, judge(lines[i]), i + 1).Err? { ErrorStaysRead(judge, lines, start, i + 1, stop); }
  }

  lemma {:induction false} ErrorStaysRead(judge: string -> Line, lines: seq<string>, start: nat, k: nat, stop: nat)
    requires start <= k <= stop <= |lines| && ReadRows(judge, lines, start, k).Err?
    ensures ReadRows(judge, lines, start, stop) == ReadRows(judge, lines, start, k)
    decreases stop
  {
    if k < stop { ErrorStaysRead(judge, lines, start, k, stop - 1); }
  }

  lemma MarkersDiffer(cmd: string)
    ensures TableBegin(cmd) != TableEnd(cmd)
  {
    assert |TableBegin(cmd)| == |TableEnd(cmd)| + 2;
  }

  // ----- printing -----

  /** Escape backslashes and pipes. */
  function Escape(s: string): string {
    if s == "" then "" else EscapeChar(s[0]) + Escape(s[1..])
  }

  function EscapeChar(c: char): string {
    if c == '\\' || c == '|' then ['\\', c] else [c]
  }

  function Inner(cells: seq<string>): string
    requires cells != []
  {
    if |cells| == 1 then " " + Escape(cells[0]) + " "
    else " " + Escape(cells[0]) + " |" + Inner(cells[1..])
  }

  /** A table row: the cells escaped, padded and fenced by pipes. */
  function RowLine(cells: seq<string>): string
    requires cells != []
  {
    "|" + Inner(cells) + "|"
  }

  function FieldCell(name: string, optional: bool): string {
    "`" + name + (if optional then "?" else "") + "`"
  }

  function CellsOf(row: DocRow): seq<string> {
    [FieldCell(row.field, row.optional), row.typ, row.description]
  }

  /** What can be printed: trimmed, newline-free cells. */
  predicate Printable(cell: string) {
    Bare(cell, IsSpace) && '\n' !in cell
  }

  // ----- a row survives printing -----

  lemma Regroup<T>(a: seq<T>, b: seq<T>, c: seq<T>)
    ensures (a + b) + c == a + (b + c)
  {
  }

  lemma PartsOfEscapedChar(c: char, rest: string, cur: string)
    ensures Parts(EscapeChar(c) + rest, cur, false) == Parts(rest, cur + [c], false)
  {
    var s := EscapeChar(c) + rest;
    if c == '\\' || c == '|' {
      assert s[1..] == [c] + rest;
      assert s[1..][1..] == rest;
    } else {
      assert s[1..] == rest;
    }
  }

  lemma {:induction false} PartsOfEscaped(cell: string, rest: string, cur: string)
    ensures Parts(Escape(cell) + rest, cur, false) == Parts(rest, cur + cell, false)
  {
    if cell == "" {
      assert Escape(cell) + rest == rest && cur + cell == cur;
    } else {
      var c, tail := cell[0], Escape(cell[1..]) + rest;
      Regroup(EscapeChar(c), Escape(cell[1..]), rest);
      PartsOfEscapedChar(c, tail, cur);
      PartsOfEscaped(cell[1..], rest, cur + [c]);
      Regroup(cur, [c], cell[1..]);
      assert [c] + cell[1..] == cell;
    }
  }

  function Padded(cells: seq<string>): (r: seq<string>)
    ensures |r| == |cells| && forall i :: 0 <= i < |r| ==> r[i] == " " + cells[i] + " "
  {
    seq(|cells|, i requires 0 <= i < |cells| => " " + cells[i] + " ")
  }

  lemma PartsOfPadded(cell: string, rest: string)
    ensures Parts(" " + Escape(cell) + " " + rest, "", false) == Parts(rest, " " + cell + " ", false)
  {
    var s := " " + Escape(cell) + " " + rest;
    assert s[1..] == Escape(cell) + (" " + rest);
    assert "" + " " == " ";
    PartsOfEscaped(cell, " " + rest, " ");
    assert (" " + rest)[1..] == rest;
  }

  lemma {:induction false} PartsOfInner(cells: seq<string>)
    requires cells != []
    ensures Parts(Inner(cells), "", false) == Padded(cells)
  {
    if |cells| == 1 {
      PartsOfPadded(cells[0], "");
      assert " " + Escape(cells[0]) + " " + "" == Inner(cells);
    } else {
      var rest := Inner(cells[1..]);
      PartsOfInner(cells[1..]);
      PartsOfFirst(cells[0], rest);
      assert Inner(cells) == " " + Escape(cells[0]) + " |" + rest;
      assert Padded(cells) == [" " + cells[0] + " "] + Padded(cells[1..]);
    }
  }

  lemma PartsOfFirst(cell: string, rest: string)
    ensures Parts(" " + Escape(cell) + " |" + rest, "", false) == [" " + cell + " "] + Parts(rest, "", false)
  {
    PartsOfPadded(cell, "|" + rest);
    assert " " + Escape(cell) + " |" + rest == " " + Escape(cell) + " " + ("|" + rest);
    assert ("|" + rest)[1..] == rest;
  }

  /** Printing a row and splitting it gives the cells back, whatever backslashes and pipes are in
      them, exactly when every cell is trimmed. */
  lemma SplitOfPrinted(cells: seq<string>)
    requires cells != []
    ensures TrimSpace(RowLine(cells)) == RowLine(cells)
    ensures SplitRow(RowLine(cells)) == TrimAll(Padded(cells))
    ensures (forall c :: c in cells ==> Bare(c, IsSpace)) <==> SplitRow(RowLine(cells)) == cells
  {
    var line := RowLine(cells);
    TrimBare(line, IsSpace);
    assert TrimPrefix(line, '|') == Inner(cells) + "|";
    assert TrimSuffix(Inner(cells) + "|", '|') == Inner(cells);
    PartsOfInner(cells);
    if forall c :: c in cells ==> Bare(c, IsSpace) {
      forall i | 0 <= i < |cells| ensures TrimSpace(Padded(cells)[i]) == cells[i] {
        assert cells[i] in cells;
        assert " " + cells[i] + " " == [' '] + cells[i] + [' '];
        TrimPadded(' ', cells[i], ' ', IsSpace);
      }
      assert SplitRow(line) == cells;
    }
    if SplitRow(line) == cells {
      forall c | c in cells ensures Bare(c, IsSpace) {
        var i :| 0 <= i < |cells| && cells[i] == c;
        assert TrimSpace(Padded(cells)[i]) == c;
        TrimShape(Padded(cells)[i], IsSpace);
      }
    }
  }

  /** A printed name comes back, with its optional mark, exactly when it does not start with a
      backtick and, unless it is optional, does not end with a backtick or a question mark. */
  predicate NameKept(name: string, optional: bool) {
    name == "" || (name[0] != '`' && (optional || (name[|name| - 1] != '`' && name[|name| - 1] != '?')))
  }

  lemma NameSurvives(name: string, optional: bool)
    ensures FieldOf(FieldCell(name, optional)) == (name, optional) <==> NameKept(name, optional)
  {
    var marked := if optional then name + "?" else name;
    var cell := FieldCell(name, optional);
    assert cell == ['`'] + marked + ['`'];
    if NameKept(name, optional) {
      TrimPadded('`', marked, '`', IsBacktick);
    } else {
      TrimShape(cell, IsBacktick);
      var got := Trim(cell, IsBacktick);
      if name[0] != '`' && !optional && name[|name| - 1] == '?' {
        TrimPadded('`', marked, '`', IsBacktick);
      } else if got != "" {
        assert got[0] != '`' && got[|got| - 1] != '`';
      }
    }
  }

  lemma {:induction false} EscapeAddsNoNewline(s: string)
    requires '\n' !in s
    ensures '\n' !in Escape(s)
  {
    if s != "" {
      assert s[0] in s;
      EscapeAddsNoNewline(s[1..]);
    }
  }

  lemma {:induction false} RowHasNoNewline(cells: seq<string>)
    requires cells != [] && forall c :: c in cells ==> '\n' !in c
    ensures '\n' !in Inner(cells) && '\n' !in RowLine(cells)
  {
    assert cells[0] in cells;
    EscapeAddsNoNewline(cells[0]);
    if |cells| > 1 { RowHasNoNewline(cells[1..]); }
  }

  // ----- a whole document survives printing -----

  /** A line that reads as the table's header. */
  predicate IsHeader(line: Line) {
    line.Cells? && line.columns
  }

  /** A line of dashes that reads as the rule under the header. */
  predicate IsRule(line: Line) {
    line.Cells? && line.rule
  }

  /** A line that reads as this row. */
  predicate ReadsAs(line: Line, row: DocRow) {
    line.Cells? && !line.rule && line.fields.Some? && RowOf(line.fields.value, row.line) == row
  }

  function RowLines(rows: seq<DocRow>): (ls: seq<string>)
    ensures |ls| == |rows| && forall i :: 0 <= i < |ls| ==> ls[i] == RowLine(CellsOf(rows[i]))
  {
    seq(|rows|, i requires 0 <= i < |rows| => RowLine(CellsOf(rows[i])))
  }

  /** A fenced table: a header line, a rule and the lines of the rows. */
  function Table(header: string, rule: string, printed: seq<string>): seq<string> {
    [header, rule] + printed
  }

  /** A document: any text, the fenced table, any text. */
  function DocLines(before: seq<string>, cmd: string, table: seq<string>, after: seq<string>): seq<string> {
    before + [TableBegin(cmd)] + table + [TableEnd(cmd)] + after
  }

  predicate MarkerFree(lines: seq<string>, cmd: string) {
    forall i :: 0 <= i < |lines| ==> TrimSpace(lines[i]) != TableBegin(cmd) && TrimSpace(lines[i]) != TableEnd(cmd)
  }

  /** Rows that can be printed, numbered with the lines they land on. */
  ghost predicate PrintableRows(rows: seq<DocRow>, firstLine: nat) {
    forall i :: 0 <= i < |rows| ==>
      && NameKept(rows[i].field, rows[i].optional)
      && '\n' !in rows[i].field && Printable(rows[i].typ) && Printable(rows[i].description)
      && rows[i].line == firstLine + i
  }

  lemma PrintedCells(cells: seq<string>)
    requires cells != [] && forall c :: c in cells ==> Bare(c, IsSpace)
    ensures Judge(RowLine(cells)) == Cells(AreColumns(cells), IsSeparatorRow(cells),
                                           if |cells| == 3 then Some(FieldsOf(cells)) else None)
  {
    SplitOfPrinted(cells);
  }

  /** A printed field cell is trimmed, and is more than dashes, colons and blanks. */
  lemma FieldCellStands(name: string, optional: bool)
    ensures var cell := FieldCell(name, optional); Bare(cell, IsSpace) && Trim(cell, InSeparator) != ""
  {
    var cell := FieldCell(name, optional);
    assert cell[0] == '`' && cell[|cell| - 1] == '`';
    TrimShape(cell, InSeparator);
    assert cell[0] in cell && !InSeparator('`');
  }

  lemma PrintedRow(row: DocRow)
    requires NameKept(row.field, row.optional) && Bare(row.typ, IsSpace) && Bare(row.description, IsSpace)
    ensures ReadsAs(Judge(RowLine(CellsOf(row))), row)
  {
    FieldCellStands(row.field, row.optional);
    NameSurvives(row.field, row.optional);
    PrintedCells(CellsOf(row));
  }

  lemma ColumnsAreBare(columns: seq<string>)
    requires AreColumns(columns)
    ensures forall c :: c in columns ==> Bare(c, IsSpace)
  {
  }

  /** The usual header, printed, is one. */
  lemma HeaderPrinted(columns: seq<string>)
    requires AreColumns(columns)
    ensures IsHeader(Judge(RowLine(columns)))
  {
    ColumnsAreBare(columns);
    PrintedCells(columns);
  }

  /** So is a rule of dashes, in as many columns as one likes. */
  lemma RulePrinted(cells: seq<string>)
    requires cells != [] && IsSeparatorRow(cells) && forall c :: c in cells ==> Bare(c, IsSpace)
    ensures IsRule(Judge(RowLine(cells)))
  {
    PrintedCells(cells);
  }

  predicate OnlySeparators(cell: string) {
    forall c :: c in cell ==> InSeparator(c)
  }

  /** A row is a rule exactly when its cells hold dashes, colons and blanks and nothing else. */
  lemma {:induction false} SeparatorCells(cells: seq<string>)
    ensures IsSeparatorRow(cells) <==> forall cell :: cell in cells ==> OnlySeparators(cell)
  {
    if cells != [] {
      TrimShape(cells[0], InSeparator);
      assert Trim(cells[0], InSeparator) == "" <==> OnlySeparators(cells[0]);
      SeparatorCells(cells[1..]);
      assert forall cell :: cell in cells <==> cell == cells[0] || cell in cells[1..];
    }
  }

  /** Lines that read as these rows, numbered from `firstLine`. */
  ghost predicate AllRead(judge: string -> Line, printed: seq<string>, rows: seq<DocRow>, firstLine: nat) {
    && |printed| == |rows|
    && forall i :: 0 <= i < |rows| ==> ReadsAs(judge(printed[i]), rows[i]) && rows[i].line == firstLine + i
  }

  /** Reading a table gives its rows, whatever surrounds it and however lines are judged. */
  lemma {:induction false} ReadTable(judge: string -> Line, lines: seq<string>, start: nat, printed: seq<string>,
                                    rows: seq<DocRow>, k: nat)
    requires k <= |rows| && AllRead(judge, printed, rows, start + 3)
    requires start + 2 + |rows| <= |lines| && IsHeader(judge(lines[start])) && IsRule(judge(lines[start + 1]))
    requires forall i :: 0 <= i < |rows| ==> lines[start + 2 + i] == printed[i]
    ensures ReadRows(judge, lines, start, start + 2 + k) == Ok(Reading(true, rows[..k]))
  {
    if k == 0 {
      assert ReadRows(judge, lines, start, start) == Ok(NOTHING);
      assert ReadRows(judge, lines, start, start + 1) == Ok(Reading(true, []));
    } else {
      ReadTable(judge, lines, start, printed, rows, k - 1);
      assert lines[start + 2 + (k - 1)] == printed[k - 1];
      assert rows[..k] == rows[..k - 1] + [rows[k - 1]];
    }
  }

  /** Lines that are no markers leave the markers found so far. */
  lemma {:induction false} PassesMarkerFree(trim: string -> string, lines: seq<string>, k: nat, n: nat, begin: string,
                                            end: string)
    requires k <= n <= |lines|
    requires forall i :: k <= i < n ==> trim(lines[i]) != begin && trim(lines[i]) != end
    ensures MarkersUpTo(trim, lines, n, begin, end) == MarkersUpTo(trim, lines, k, begin, end)
  {
    if k < n { PassesMarkerFree(trim, lines, k, n - 1, begin, end); }
  }

  /** A command name that can stand in a marker. */
  lemma MarkersAreBare(cmd: string)
    ensures TrimSpace(TableBegin(cmd)) == TableBegin(cmd) && TrimSpace(TableEnd(cmd)) == TableEnd(cmd)
    ensures TableBegin(cmd)[0] == '<' && TableEnd(cmd)[0] == '<'
  {
    var b, e := TableBegin(cmd), TableEnd(cmd);
    assert b[0] == '<' && b[|b| - 1] == '>';
    assert e[0] == '<' && e[|e| - 1] == '>';
    TrimBare(b, IsSpace);
    TrimBare(e, IsSpace);
  }

  lemma TableIsMarkerFree(table: seq<string>, cmd: string)
    requires forall l :: l in table ==> "|" <= TrimSpace(l)
    ensures MarkerFree(table, cmd)
  {
    MarkersAreBare(cmd);
    forall i | 0 <= i < |table| ensures TrimSpace(table[i]) != TableBegin(cmd) && TrimSpace(table[i]) != TableEnd(cmd) {
      assert table[i] in table;
      assert TrimSpace(table[i])[0] == '|';
    }
  }

  /** A begin marker, marker-free lines and an end marker, with nothing else around, are found. */
  lemma MarkersFound(trim: string -> string, lines: seq<string>, b: nat, e: nat, begin: string, end: string)
    requires b < e < |lines| && begin != end
    requires trim(lines[b]) == begin && trim(lines[e]) == end
    requires forall i :: 0 <= i < |lines| && i != b && i != e ==> trim(lines[i]) != begin && trim(lines[i]) != end
    ensures MarkersUpTo(trim, lines, |lines|, begin, end) == Ok((Some(b), Some(e)))
  {
    PassesMarkerFree(trim, lines, 0, b, begin, end);
    PassesMarkerFree(trim, lines, b + 1, e, begin, end);
    PassesMarkerFree(trim, lines, e + 1, |lines|, begin, end);
  }

  lemma PrintedMarkers(before: seq<string>, cmd: string, table: seq<string>, after: seq<string>)
    requires MarkerFree(before, cmd) && MarkerFree(after, cmd) && MarkerFree(table, cmd)
    ensures FindMarkers(DocLines(before, cmd, table, after), TableBegin(cmd), TableEnd(cmd))
         == Ok((Some(|before|), Some(|before| + 1 + |table|)))
  {
    MarkersAreBare(cmd);
    MarkersDiffer(cmd);
    var lines, b, e := DocLines(before, cmd, table, after), |before|, |before| + 1 + |table|;
    forall i | 0 <= i < |lines| && i != b && i != e
      ensures TrimSpace(lines[i]) != TableBegin(cmd) && TrimSpace(lines[i]) != TableEnd(cmd)
    {
      assert lines[i] == if i < b then before[i] else if i < e then table[i - b - 1] else after[i - e - 1];
    }
    MarkersFound(TrimSpace, lines, b, e, TableBegin(cmd), TableEnd(cmd));
  }

  lemma TableLinesAreNoMarkers(table: seq<string>, cmd: string)
    requires forall l :: l in table ==> Judge(l).Cells?
    ensures MarkerFree(table, cmd)
  {
    forall l | l in table ensures "|" <= TrimSpace(l) {
      assert Judge(l).Cells?;
    }
    TableIsMarkerFree(table, cmd);
  }

  lemma TableIsCells(judge: string -> Line, header: string, rule: string, printed: seq<string>, rows: seq<DocRow>,
                     firstLine: nat)
    requires IsHeader(judge(header)) && IsRule(judge(rule)) && AllRead(judge, printed, rows, firstLine)
    ensures forall l :: l in Table(header, rule, printed) ==> judge(l).Cells?
  {
  }

  lemma ReadWholeTable(judge: string -> Line, lines: seq<string>, start: nat, printed: seq<string>, rows: seq<DocRow>)
    requires AllRead(judge, printed, rows, start + 3)
    requires start + 2 + |rows| <= |lines| && IsHeader(judge(lines[start])) && IsRule(judge(lines[start + 1]))
    requires forall i :: 0 <= i < |rows| ==> lines[start + 2 + i] == printed[i]
    ensures ReadRows(judge, lines, start, start + 2 + |rows|) == Ok(Reading(true, rows))
  {
    ReadTable(judge, lines, start, printed, rows, |rows|);
    assert rows[..|rows|] == rows;
  }

  lemma TableLands(before: seq<string>, cmd: string, header: string, rule: string, printed: seq<string>,
                   after: seq<string>)
    ensures var lines := DocLines(before, cmd, Table(header, rule, printed), after);
      && |lines| == |before| + 4 + |printed| + |after|
      && lines[|before| + 1] == header && lines[|before| + 2] == rule
      && forall i :: 0 <= i < |printed| ==> lines[|before| + 3 + i] == printed[i]
  {
  }

  lemma ParseOfBlock(judge: string -> Line, lines: seq<string>, cmd: string, b: nat, printed: seq<string>,
                     rows: seq<DocRow>)
    requires FindMarkers(lines, TableBegin(cmd), TableEnd(cmd)) == Ok((Some(b), Some(b + 3 + |rows|)))
    requires AllRead(judge, printed, rows, b + 4)
    requires b + 3 + |rows| <= |lines| && IsHeader(judge(lines[b + 1])) && IsRule(judge(lines[b + 2]))
    requires forall i :: 0 <= i < |rows| ==> lines[b + 3 + i] == printed[i]
    ensures ParseWith(judge, lines, cmd) == Ok(rows)
  {
    ReadWholeTable(judge, lines, b + 1, printed, rows);
  }

  /** A table between its markers inside any marker-free text parses to the rows its lines read as. */
  lemma ParseOfTable(judge: string -> Line, before: seq<string>, cmd: string, header: string, rule: string,
                     printed: seq<string>, rows: seq<DocRow>, after: seq<string>)
    requires MarkerFree(before, cmd) && MarkerFree(after, cmd) && MarkerFree(Table(header, rule, printed), cmd)
    requires IsHeader(judge(header)) && IsRule(judge(rule)) && AllRead(judge, printed, rows, |before| + 4)
    ensures ParseWith(judge, DocLines(before, cmd, Table(header, rule, printed), after), cmd) == Ok(rows)
  {
    var table := Table(header, rule, printed);
    PrintedMarkers(before, cmd, table, after);
    TableLands(before, cmd, header, rule, printed, after);
    ParseOfBlock(judge, DocLines(before, cmd, table, after), cmd, |before|, printed, rows);
  }

  lemma PrintedRows(rows: seq<DocRow>, firstLine: nat)
    requires PrintableRows(rows, firstLine)
    ensures AllRead(Judge, RowLines(rows), rows, firstLine)
  {
    forall i | 0 <= i < |rows| ensures ReadsAs(Judge(RowLines(rows)[i]), rows[i]) {
      PrintedRow(rows[i]);
    }
  }

  /** Print a table between its markers inside any marker-free text, parse the text: the rows come
      back, each with its line. */
  lemma ParseOfPrinted(before: seq<string>, cmd: string, header: string, rule: string, rows: seq<DocRow>,
                       after: seq<string>)
    requires MarkerFree(before, cmd) && MarkerFree(after, cmd)
    requires IsHeader(Judge(header)) && IsRule(Judge(rule)) && PrintableRows(rows, |before| + 4)
    ensures ParseDoc(DocLines(before, cmd, Table(header, rule, RowLines(rows)), after), cmd) == Ok(rows)
  {
    PrintedRows(rows, |before| + 4);
    TableIsCells(Judge, header, rule, RowLines(rows), rows, |before| + 4);
    TableLinesAreNoMarkers(Table(header, rule, RowLines(rows)), cmd);
    ParseOfTable(Judge, before, cmd, header, rule, RowLines(rows), rows, after);
  }

  /** The same from the text itself: joining the lines and splitting them again loses nothing. */
  lemma ParseOfPrintedText(before: seq<string>, cmd: string, header: string, rule: string, rows: seq<DocRow>,
                           after: seq<string>)
    requires MarkerFree(before, cmd) && MarkerFree(after, cmd)
    requires IsHeader(Judge(header)) && IsRule(Judge(rule)) && PrintableRows(rows, |before| + 4)
    requires '\n' !in cmd && (forall l :: l in before + [header, rule] + after ==> '\n' !in l)
    ensures ParseDoc(Lines(JoinLines(DocLines(before, cmd, Table(header, rule, RowLines(rows)), after))), cmd) ==
      Ok(rows)
  {
    var lines := DocLines(before, cmd, Table(header, rule, RowLines(rows)), after);
    forall l | l in lines ensures '\n' !in l {
      if l in RowLines(rows) {
        RowLinesHaveNoNewline(rows, |before| + 4, l);
      } else if l in before + [header, rule] + after {
      } else {
        assert l == TableBegin(cmd) || l == TableEnd(cmd);
        MarkersHaveNoNewline(cmd);
      }
    }
    LinesOfJoined(lines);
    ParseOfPrinted(before, cmd, header, rule, rows, after);
  }

  lemma MarkersHaveNoNewline(cmd: string)
    requires '\n' !in cmd
    ensures '\n' !in TableBegin(cmd) && '\n' !in TableEnd(cmd)
  {
  }

  lemma RowLinesHaveNoNewline(rows: seq<DocRow>, firstLine: nat, l: string)
    requires PrintableRows(rows, firstLine) && l in RowLines(rows)
    ensures '\n' !in l
  {
    var i :| 0 <= i < |rows| && RowLines(rows)[i] == l;
    RowHasNoNewline(CellsOf(rows[i]));
  }
}
