/** What parsing a document gives, line by line: which documents have no table, a wrong header or a row
    that does not fit, and what the rows of any other one are. */
module DocLines {
  import opened Prelude
  import opened Text
  import opened DocTable

  // ----- the cells of any line -----

  /** A character of a row as it is written: by itself, made literal by a backslash, or a separator. */
  datatype Written = Plain(c: char) | Literal(c: char) | Bar

  predicate WellWritten(ws: seq<Written>) {
    forall w :: w in ws && w.Plain? ==> w.c != '\\' && w.c != '|'
  }

  function SpellOne(w: Written): string {
    match w
    case Plain(c) => [c]
    case Literal(c) => ['\\', c]
    case Bar => ['|']
  }

  function Spell(ws: seq<Written>): string {
    if ws == [] then "" else SpellOne(ws[0]) + Spell(ws[1..])
  }

  /** The cells written: what stands between the separators, backslashes left out. */
  function WrittenCells(ws: seq<Written>, cur: string): seq<string> {
    if ws == [] then [cur]
    else if ws[0].Bar? then [cur] + WrittenCells(ws[1..], "")
    else WrittenCells(ws[1..], cur + [ws[0].c])
  }

  lemma {:induction false} PartsOfWritten(ws: seq<Written>, cur: string, tail: string)
    requires WellWritten(ws) && tail in {"", ['\\']}
    ensures Parts(Spell(ws) + tail, cur, false) == WrittenCells(ws, cur)
  {
    if ws == [] {
      assert Spell(ws) + tail == tail;
      assert tail != "" ==> tail[1..] == "";
    } else {
      assert ws[0] in ws && WellWritten(ws[1..]) by { assert forall w :: w in ws[1..] ==> w in ws; }
      PartsOfWritten(ws[1..], if ws[0].Bar? then "" else cur + [ws[0].c], tail);
      Regroup(SpellOne(ws[0]), Spell(ws[1..]), tail);
      PartsOfOne(ws[0], Spell(ws[1..]) + tail, cur);
    }
  }

  lemma PartsOfOne(w: Written, rest: string, cur: string)
    requires w.Plain? ==> w.c != '\\' && w.c != '|'
    ensures Parts(SpellOne(w) + rest, cur, false) ==
      if w.Bar? then [cur] + Parts(rest, "", false) else Parts(rest, cur + [w.c], false)
  {
    var s := SpellOne(w) + rest;
    if w.Literal? {
      assert s[1..] == [w.c] + rest;
      assert s[1..][1..] == rest;
    } else {
      assert s[1..] == rest;
    }
  }

  /** Every string is written so, save that it may end in a backslash with nothing after it. */
  lemma {:induction false} EveryStringIsWritten(s: string) returns (ws: seq<Written>, tail: string)
    ensures WellWritten(ws) && tail in {"", ['\\']} && s == Spell(ws) + tail
    decreases |s|
  {
    ws, tail := [], "";
    if s != "" {
      if s == ['\\'] {
        tail := s;
      } else {
        var w, n := if s[0] == '\\' then Literal(s[1]) else if s[0] == '|' then Bar else Plain(s[0]),
                    if s[0] == '\\' then 2 else 1;
        var rest;
        rest, tail := EveryStringIsWritten(s[n..]);
        ws := [w] + rest;
        assert ws[1..] == rest;
        assert s == s[..n] + s[n..];
      }
    }
  }

  /** The cells of any line at all: of what stands between its outer pipes, however it is written, the
      cells written, trimmed. */
  lemma CellsOfAnyLine(line: string, inner: string, ws: seq<Written>, tail: string)
    requires Encloses(TrimSpace(line), inner)
    requires WellWritten(ws) && tail in {"", ['\\']} && inner == Spell(ws) + tail
    ensures SplitRow(line) == TrimAll(WrittenCells(ws, ""))
  {
    PartsOfWritten(ws, "", tail);
    OuterPipes(TrimSpace(line), inner);
  }

  /** A row starts with a pipe, and may end in one. */
  predicate Encloses(row: string, inner: string) {
    row == "|" + inner + "|" || (row == "|" + inner && (inner == "" || inner[|inner| - 1] != '|'))
  }

  lemma OuterPipes(row: string, inner: string)
    requires Encloses(row, inner)
    ensures TrimSuffix(TrimPrefix(row, '|'), '|') == inner
  {
    if row == "|" + inner {
      assert row[1..] == inner;
    } else {
      assert row[1..] == inner + "|";
      assert (inner + "|")[..|inner|] == inner;
    }
  }

  // ----- lines of the table -----

  /** A line of the table starts with a pipe; the others are prose. */
  predicate IsTableLine(text: string) {
    var line := TrimSpace(text);
    line != "" && line[0] == '|'
  }

  function CellsAt(text: string): seq<string> {
    SplitRow(TrimSpace(text))
  }

  lemma ColumnsMean(cells: seq<string>)
    ensures AreColumns(cells) <==> cells == ["Field", "Type", "Description"]
  {
  }

  lemma StartsWithPipe(line: string)
    ensures "|" <= line <==> line != "" && line[0] == '|'
  {
  }

  /** What a line is judged by: whether it starts with a pipe, and its cells. */
  lemma JudgeMeans(text: string)
    ensures Judge(text).Prose? <==> !IsTableLine(text)
    ensures Judge(text).Cells? ==>
      && (Judge(text).columns <==> CellsAt(text) == ["Field", "Type", "Description"])
      && (Judge(text).fields.None? <==> |CellsAt(text)| != 3)
  {
    StartsWithPipe(TrimSpace(text));
    ColumnsMean(CellsAt(text));
  }

  /** A rule holds dashes, colons and blanks only, and a row of three cells is its field, with the mark,
      its type and its description. */
  lemma RowLineMeans(text: string)
    requires IsTableLine(text)
    ensures Judge(text).rule <==> forall c, k :: c in CellsAt(text) && 0 <= k < |c| ==> c[k] in {'-', ':', ' '}
    ensures |CellsAt(text)| == 3 ==>
      var cells := CellsAt(text);
      Judge(text).fields == Some(Fields(FieldOf(cells[0]).0, cells[1], cells[2], FieldOf(cells[0]).1))
  {
    StartsWithPipe(TrimSpace(text));
    RuleMeans(CellsAt(text));
  }

  lemma RuleMeans(cells: seq<string>)
    ensures IsSeparatorRow(cells) <==> forall c, k :: c in cells && 0 <= k < |c| ==> c[k] in {'-', ':', ' '}
  {
    SeparatorCells(cells);
    if IsSeparatorRow(cells) {
      forall c, k | c in cells && 0 <= k < |c| ensures c[k] in {'-', ':', ' '} {
        assert c[k] in c;
      }
    }
  }

  // ----- a table between two lines, for any judgement of a line -----

  /** Line h is the first of the table between lines b and e. */
  ghost predicate HeaderAt(judge: string -> Line, lines: seq<string>, b: int, e: int, h: int) {
    && 0 <= b < h < e <= |lines| && judge(lines[h]).Cells?
    && forall i :: b < i < h ==> judge(lines[i]).Prose?
  }

  /** Line i is a row of the table under header h. */
  predicate IsRow(judge: string -> Line, lines: seq<string>, h: int, i: int) {
    0 <= h < i < |lines| && judge(lines[i]).Cells? && !judge(lines[i]).rule
  }

  predicate IsBadRow(judge: string -> Line, lines: seq<string>, h: int, i: int) {
    IsRow(judge, lines, h, i) && judge(lines[i]).fields.None?
  }

  ghost predicate FirstBadRow(judge: string -> Line, lines: seq<string>, h: int, e: int, i: int) {
    i < e && IsBadRow(judge, lines, h, i) && forall j :: h < j < i ==> !IsBadRow(judge, lines, h, j)
  }

  ghost predicate NoBadRow(judge: string -> Line, lines: seq<string>, h: int, e: int) {
    forall j :: h < j < e ==> !IsBadRow(judge, lines, h, j)
  }

  /** The rows under header h up to line n. */
  function RowsUnder(judge: string -> Line, lines: seq<string>, h: nat, n: nat): seq<DocRow>
    requires n <= |lines|
  {
    if n <= h + 1 then []
    else
      RowsUnder(judge, lines, h, n - 1) +
      if IsRow(judge, lines, h, n - 1) && judge(lines[n - 1]).fields.Some?
      then [RowOf(judge(lines[n - 1]).fields.value, n)]
      else []
  }

  lemma {:induction false} OnlyProse(judge: string -> Line, lines: seq<string>, b: nat, n: nat)
    requires b < n <= |lines| && forall i :: b < i < n ==> judge(lines[i]).Prose?
    ensures ReadRows(judge, lines, b + 1, n) == Ok(NOTHING)
  {
    if n > b + 1 { OnlyProse(judge, lines, b, n - 1); }
  }

  lemma WrongHeader(judge: string -> Line, lines: seq<string>, b: nat, e: nat, h: nat)
    requires HeaderAt(judge, lines, b, e, h) && !judge(lines[h]).columns
    ensures ReadRows(judge, lines, b + 1, e) == Err(BadHeader(h + 1))
  {
    OnlyProse(judge, lines, b, h);
    OneLine(judge, lines, b + 1, h, e, NOTHING);
  }

  lemma {:induction false} GoodRows(judge: string -> Line, lines: seq<string>, b: nat, n: nat, h: nat)
    requires HeaderAt(judge, lines, b, n, h) && judge(lines[h]).columns && NoBadRow(judge, lines, h, n)
    ensures ReadRows(judge, lines, b + 1, n) == Ok(Reading(true, RowsUnder(judge, lines, h, n)))
    decreases n
  {
    if n == h + 1 {
      OnlyProse(judge, lines, b, h);
    } else {
      GoodRows(judge, lines, b, n - 1, h);
      assert !IsBadRow(judge, lines, h, n - 1);
      var rows, none: seq<DocRow> := RowsUnder(judge, lines, h, n - 1), [];
      assert rows + none == rows;
      assert Step(Reading(true, rows), judge(lines[n - 1]), n) == Ok(Reading(true, RowsUnder(judge, lines, h, n)));
    }
  }

  lemma BadRowFails(judge: string -> Line, lines: seq<string>, b: nat, e: nat, h: nat, i: nat)
    requires HeaderAt(judge, lines, b, e, h) && judge(lines[h]).columns && FirstBadRow(judge, lines, h, e, i)
    ensures ReadRows(judge, lines, b + 1, e) == Err(BadRow(i + 1))
  {
    GoodRows(judge, lines, b, i, h);
    OneLine(judge, lines, b + 1, i, e, Reading(true, RowsUnder(judge, lines, h, i)));
  }

  lemma {:induction false} FindHeader(judge: string -> Line, lines: seq<string>, b: nat, e: nat) returns (h: nat)
    requires b < e <= |lines|
    ensures HeaderAt(judge, lines, b, e, h) || forall i :: b < i < e ==> judge(lines[i]).Prose?
    decreases e
  {
    h := b;
    if e > b + 1 {
      h := FindHeader(judge, lines, b, e - 1);
      if HeaderAt(judge, lines, b, e - 1, h) {
        assert HeaderAt(judge, lines, b, e, h);
      } else {
        h := e - 1;
        assert judge(lines[h]).Cells? ==> HeaderAt(judge, lines, b, e, h);
      }
    }
  }

  lemma {:induction false} FindBadRow(judge: string -> Line, lines: seq<string>, h: nat, e: nat) returns (i: nat)
    requires h < e <= |lines|
    ensures FirstBadRow(judge, lines, h, e, i) || NoBadRow(judge, lines, h, e)
    decreases e
  {
    i := h;
    if e > h + 1 {
      i := FindBadRow(judge, lines, h, e - 1);
      if !FirstBadRow(judge, lines, h, e - 1, i) { i := e - 1; }
    }
  }

  /** The table under header h names its columns. */
  ghost predicate GoodHeader(judge: string -> Line, lines: seq<string>, b: int, e: int, h: int) {
    HeaderAt(judge, lines, b, e, h) && judge(lines[h]).columns
  }

  /** What a reading between two lines means: no table, a wrong header, a bad row, or a table that is read
      whole; each of them exactly when the reading says so, naming the line. */
  ghost predicate ReadingIs(judge: string -> Line, lines: seq<string>, b: int, e: int, r: Result<Reading, ParseError>) {
    && b < e <= |lines|
    && (r == Ok(NOTHING) <==> forall i: nat :: b < i < e ==> judge(lines[i]).Prose?)
    && (forall line: nat :: r == Err(BadHeader(line)) <==>
          HeaderAt(judge, lines, b, e, line - 1) && !judge(lines[line - 1]).columns)
    && (forall line: nat :: r == Err(BadRow(line)) <==>
          exists h :: GoodHeader(judge, lines, b, e, h) && FirstBadRow(judge, lines, h, e, line - 1))
    && (forall rows :: r == Ok(Reading(true, rows)) <==>
          exists h: nat :: GoodHeader(judge, lines, b, e, h) && NoBadRow(judge, lines, h, e)
            && rows == RowsUnder(judge, lines, h, e))
    && (r.Ok? ==> r.value.header || r == Ok(NOTHING))
    && (r.Err? ==> r.error.BadHeader? || r.error.BadRow?)
  }

  lemma OneHeader(judge: string -> Line, lines: seq<string>, b: int, e: int, h: int, k: int)
    requires HeaderAt(judge, lines, b, e, h) && HeaderAt(judge, lines, b, e, k)
    ensures h == k
  {
  }

  lemma ReadingMeans(judge: string -> Line, lines: seq<string>, b: nat, e: nat)
    requires b < e <= |lines|
    ensures ReadingIs(judge, lines, b, e, ReadRows(judge, lines, b + 1, e))
  {
    var h := FindHeader(judge, lines, b, e);
    if HeaderAt(judge, lines, b, e, h) {
      forall k | HeaderAt(judge, lines, b, e, k) ensures k == h { OneHeader(judge, lines, b, e, h, k); }
      if !judge(lines[h]).columns {
        WrongHeader(judge, lines, b, e, h);
      } else {
        assert GoodHeader(judge, lines, b, e, h);
        var i := FindBadRow(judge, lines, h, e);
        if FirstBadRow(judge, lines, h, e, i) {
          BadRowFails(judge, lines, b, e, h, i);
        } else {
          GoodRows(judge, lines, b, e, h);
        }
      }
    } else {
      OnlyProse(judge, lines, b, e);
    }
  }

  // ----- a document -----

  /** The block of a command: its two markers, each on one line. */
  ghost predicate BlockAt(lines: seq<string>, cmd: string, b: int, e: int) {
    && 0 <= b < |lines| && Marks(TrimSpace, lines, b, TableBegin(cmd))
    && 0 <= e < |lines| && Marks(TrimSpace, lines, e, TableEnd(cmd))
    && AtMostOnce(TrimSpace, lines, |lines|, TableBegin(cmd)) && AtMostOnce(TrimSpace, lines, |lines|, TableEnd(cmd))
  }

  ghost predicate Repeats(lines: seq<string>, marker: string) {
    !AtMostOnce(TrimSpace, lines, |lines|, marker)
  }

  ghost predicate Lacks(lines: seq<string>, marker: string) {
    forall i :: 0 <= i < |lines| ==> !Marks(TrimSpace, lines, i, marker)
  }

  lemma BlockFound(lines: seq<string>, cmd: string, b: nat, e: nat)
    requires BlockAt(lines, cmd, b, e)
    ensures FindMarkers(lines, TableBegin(cmd), TableEnd(cmd)) == Ok((Some(b), Some(e))) && b != e
  {
    MarkersDiffer(cmd);
    RepeatsAreNamed(TrimSpace, lines, |lines|, TableBegin(cmd), TableEnd(cmd));
    MarkersInRange(TrimSpace, lines, |lines|, TableBegin(cmd), TableEnd(cmd));
  }

  predicate IsRepeatError(e: ParseError) {
    e.DuplicateBegin? || e.DuplicateEnd?
  }

  /** How the parse of a document follows from its block: the reading between the markers. */
  lemma ParseOfBlock(judge: string -> Line, lines: seq<string>, cmd: string, b: nat, e: nat)
    requires FindMarkers(lines, TableBegin(cmd), TableEnd(cmd)) == Ok((Some(b), Some(e)))
    ensures b < |lines| && e < |lines| && b != e
    ensures ParseWith(judge, lines, cmd) == ParseBlock(judge, lines, b, e)
  {
    MarkersApart(lines, cmd);
  }

  /** A document fails for a repeated marker before anything else ... */
  lemma RepeatFails(lines: seq<string>, cmd: string)
    ensures Repeats(lines, TableBegin(cmd)) || Repeats(lines, TableEnd(cmd)) <==>
      FindMarkers(lines, TableBegin(cmd), TableEnd(cmd)).Err?
    ensures FindMarkers(lines, TableBegin(cmd), TableEnd(cmd)).Err? ==>
      var e := FindMarkers(lines, TableBegin(cmd), TableEnd(cmd)).error;
      IsRepeatError(e) && ParseDoc(lines, cmd) == Err(e)
  {
    MarkersDiffer(cmd);
    RepeatsAreNamed(TrimSpace, lines, |lines|, TableBegin(cmd), TableEnd(cmd));
  }

  /** ... and then for a missing one. */
  lemma NoBlockFails(lines: seq<string>, cmd: string)
    requires !Repeats(lines, TableBegin(cmd)) && !Repeats(lines, TableEnd(cmd))
    ensures ParseDoc(lines, cmd) == Err(NoBlock) <==> Lacks(lines, TableBegin(cmd)) || Lacks(lines, TableEnd(cmd))
  {
    RepeatFails(lines, cmd);
    MarkersDiffer(cmd);
    MarkersLack(lines, TableBegin(cmd), TableEnd(cmd));
    MarkersDecide(lines, cmd, FindMarkers(lines, TableBegin(cmd), TableEnd(cmd)).value);
  }

  lemma MarkersDecide(lines: seq<string>, cmd: string, found: Markers)
    requires FindMarkers(lines, TableBegin(cmd), TableEnd(cmd)) == Ok(found)
    ensures ParseDoc(lines, cmd) == Err(NoBlock) <==> found.0.None? || found.1.None?
  {
    if found.0.Some? && found.1.Some? {
      ParseOfBlock(Judge, lines, cmd, found.0.value, found.1.value);
      if found.0.value < found.1.value { ReadingErrors(lines, found.0.value, found.1.value); }
    }
  }

  lemma ReadingErrors(lines: seq<string>, b: nat, e: nat)
    requires b < e <= |lines|
    ensures Outcome(ReadRows(Judge, lines, b + 1, e)) != Err(NoBlock)
  {
    ReadingMeans(Judge, lines, b, e);
  }

  lemma MarkersLack(lines: seq<string>, begin: string, end: string)
    requires begin != end && FindMarkers(lines, begin, end).Ok?
    ensures FindMarkers(lines, begin, end).value.0.None? <==> Lacks(lines, begin)
    ensures FindMarkers(lines, begin, end).value.1.None? <==> Lacks(lines, end)
  {
    MarkersInRange(TrimSpace, lines, |lines|, begin, end);
    var (b, e) := FindMarkers(lines, begin, end).value;
    if b.Some? { assert Marks(TrimSpace, lines, b.value, begin); }
    if e.Some? { assert Marks(TrimSpace, lines, e.value, end); }
  }

  /** With its two markers in place, a document fails exactly when they are the wrong way round, when no
      line between them is of the table, when the first that is does not name the three columns, or when
      a later one that is no rule has other than three cells; and the error names the line. Any other
      document gives its rows, in order, each with its line. */
  lemma DocumentMeans(lines: seq<string>, cmd: string, b: nat, e: nat)
    requires BlockAt(lines, cmd, b, e)
    ensures b != e
    ensures ParseDoc(lines, cmd) == Err(EndBeforeBegin(e + 1, b + 1)) <==> e < b
    ensures b < e ==> ReadingIs(Judge, lines, b, e, ReadRows(Judge, lines, b + 1, e))
    ensures b < e ==> ParseDoc(lines, cmd) == Outcome(ReadRows(Judge, lines, b + 1, e))
  {
    BlockFound(lines, cmd, b, e);
    ParseOfBlock(Judge, lines, cmd, b, e);
    if b < e { ReadingMeans(Judge, lines, b, e); }
  }
}
