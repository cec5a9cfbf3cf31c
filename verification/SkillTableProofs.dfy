/** Printing a table with wrapped cells and reading it back. */
module SkillTableProofs {
  import opened Text
  import opened SkillTables

  /** A cell is the list of pieces it is wrapped into. */
  type Cell = seq<string>

  datatype Table = Table(headers: Row, rows: seq<seq<Cell>>)

  predicate PlainText(s: string) {
    Trimmed(s) && BAR !in s && HEAVY_BAR !in s
  }

  predicate PlainRow(width: nat, row: seq<Cell>) {
    && |row| == width && width > 0
    && forall i, k :: 0 <= i < |row| && 0 <= k < |row[i]| ==> row[i][k] != "" && PlainText(row[i][k])
  }

  /** The first cell of a row is one piece. */
  predicate OneNamed(row: seq<Cell>) {
    row != [] && |row[0]| == 1
  }

  predicate AllOneNamed(rows: seq<seq<Cell>>) {
    forall i :: 0 <= i < |rows| ==> OneNamed(rows[i])
  }

  /** A rectangular table of trimmed pieces without bars. */
  predicate Plain(t: Table) {
    && t.headers != [] && (forall h :: h in t.headers ==> PlainText(h))
    && forall i :: 0 <= i < |t.rows| ==> PlainRow(|t.headers|, t.rows[i])
  }

  // ---- Printing

  /** Line k of a row: the k-th piece of every cell that has one. */
  function RowLine(row: seq<Cell>, k: nat): Row {
    seq(|row|, i requires 0 <= i < |row| => if k < |row[i]| then row[i][k] else "")
  }

  function Height(row: seq<Cell>): nat {
    if row == [] then 0
    else
      var before, last := Height(row[..|row| - 1]), |row[|row| - 1]|;
      if last > before then last else before
  }

  function FirstLines(row: seq<Cell>, n: nat): seq<Row> {
    if n == 0 then [] else FirstLines(row, n - 1) + [RowLine(row, n - 1)]
  }

  function RowsLines(rows: seq<seq<Cell>>): seq<Row> {
    if rows == [] then []
    else RowsLines(rows[..|rows| - 1]) + FirstLines(rows[|rows| - 1], Height(rows[|rows| - 1]))
  }

  function TableLines(t: Table): seq<Row> {
    [t.headers] + RowsLines(t.rows)
  }

  /** The line shows the cells, each padded with blanks, between bars of one weight. */
  ghost predicate Shows(raw: string, cells: Row) {
    exists padded: seq<string>, bar: char :: ShowsWith(raw, cells, padded, bar)
  }

  predicate ShowsWith(raw: string, cells: Row, padded: seq<string>, bar: char) {
    && (bar == BAR || bar == HEAVY_BAR) && cells != [] && |padded| == |cells|
    && (forall i :: 0 <= i < |cells| ==> TrimSpace(padded[i]) == cells[i] && BAR !in padded[i] && HEAVY_BAR !in padded[i])
    && TrimSpace(raw) == [bar] + Join(padded, bar) + [bar]
  }

  /** Lines that show the cells in order, with any lines without cells between them. */
  ghost predicate Draws(lines: seq<string>, cells: seq<Row>) {
    if lines == [] then cells == []
    else
      var last := lines[|lines| - 1];
      if Columns(last).None? then Draws(lines[..|lines| - 1], cells)
      else cells != [] && Shows(last, cells[|cells| - 1]) && Draws(lines[..|lines| - 1], cells[..|cells| - 1])
  }

  // ---- Reading a line back

  lemma {:induction false} LightJoin(padded: seq<string>, bar: char)
    requires bar == BAR || bar == HEAVY_BAR
    requires forall p :: p in padded ==> BAR !in p && HEAVY_BAR !in p
    ensures Light(Join(padded, bar)) == Join(padded, BAR)
  {
    if |padded| > 0 {
      assert padded[0] in padded;
      assert Light(padded[0]) == padded[0] by {
        assert forall i :: 0 <= i < |padded[0]| ==> padded[0][i] in padded[0];
      }
      if |padded| > 1 {
        LightJoin(padded[1..], bar);
        LightConcat(padded[0] + [bar], Join(padded[1..], bar));
        LightConcat(padded[0], [bar]);
      }
    }
  }

  lemma LightConcat(a: string, b: string)
    ensures Light(a + b) == Light(a) + Light(b)
  {
  }

  lemma SplitFramed(padded: seq<string>)
    requires padded != [] && forall p :: p in padded ==> BAR !in p
    ensures Split([BAR] + Join(padded, BAR) + [BAR], BAR) == [""] + padded + [""]
  {
    var parts := [""] + padded + [""];
    SplitJoin(parts, BAR);
    JoinLast(padded, "", BAR);
    assert parts[1..] == padded + [""];
    assert Join(parts, BAR) == "" + [BAR] + (Join(padded, BAR) + [BAR] + "");
    assert Join(parts, BAR) == [BAR] + Join(padded, BAR) + [BAR];
  }

  lemma {:induction false} JoinLast(parts: seq<string>, x: string, sep: char)
    requires parts != []
    ensures Join(parts + [x], sep) == Join(parts, sep) + [sep] + x
  {
    if |parts| == 1 {
      assert (parts + [x])[1..] == [x];
    } else {
      JoinLast(parts[1..], x, sep);
      assert (parts + [x])[1..] == parts[1..] + [x];
    }
  }

  lemma LightFramed(padded: seq<string>, bar: char)
    requires bar == BAR || bar == HEAVY_BAR
    requires forall p :: p in padded ==> BAR !in p && HEAVY_BAR !in p
    ensures Light([bar] + Join(padded, bar) + [bar]) == [BAR] + Join(padded, BAR) + [BAR]
  {
    LightJoin(padded, bar);
    LightConcat([bar] + Join(padded, bar), [bar]);
    LightConcat([bar], Join(padded, bar));
    assert Light([bar]) == [BAR];
  }

  lemma FramedColumns(raw: string, cells: Row, padded: seq<string>, bar: char)
    requires bar == BAR || bar == HEAVY_BAR
    requires TrimSpace(raw) == [bar] + Join(padded, bar) + [bar] && padded != []
    requires Split(Light(TrimSpace(raw)), BAR) == [""] + padded + [""]
    requires TrimAll(padded) == cells
    ensures Columns(raw) == Some(cells)
  {
    var line, parts := TrimSpace(raw), [""] + padded + [""];
    assert FramedBy(line, bar);
    assert |parts| == |padded| + 2 && parts[1..|parts| - 1] == padded;
  }

  lemma ShownColumns(raw: string, cells: Row)
    requires Shows(raw, cells)
    ensures Columns(raw) == Some(cells)
  {
    var padded, bar :| ShowsWith(raw, cells, padded, bar);
    forall p | p in padded ensures BAR !in p && HEAVY_BAR !in p {
    }
    LightFramed(padded, bar);
    SplitFramed(padded);
    assert TrimAll(padded) == cells;
    FramedColumns(raw, cells, padded, bar);
  }

  lemma {:induction false} DrawnColumns(lines: seq<string>, cells: seq<Row>)
    requires Draws(lines, cells)
    ensures AllColumns(lines) == cells
  {
    if lines != [] {
      var last := lines[|lines| - 1];
      if Columns(last).None? {
        DrawnColumns(lines[..|lines| - 1], cells);
      } else {
        DrawnColumns(lines[..|lines| - 1], cells[..|cells| - 1]);
        ShownColumns(last, cells[|cells| - 1]);
        SplitLast(cells);
      }
    }
  }

  // ---- Reading the lines of one row

  function Front(cell: Cell, n: nat): Cell {
    if n < |cell| then cell[..n] else cell
  }

  function Joined(row: seq<Cell>, n: nat): Row {
    seq(|row|, i requires 0 <= i < |row| => Join(Front(row[i], n), ' '))
  }

  lemma PiecesNonEmpty(pieces: Cell)
    requires pieces != [] && pieces[0] != ""
    ensures Join(pieces, ' ') != ""
  {
  }

  lemma MergeCellNext(cell: Cell, n: nat)
    requires n > 0 && forall k :: 0 <= k < |cell| ==> cell[k] != ""
    ensures MergeCell(Join(Front(cell, n), ' '), if n < |cell| then cell[n] else "") == Join(Front(cell, n + 1), ' ')
  {
    if n < |cell| {
      var pieces := cell[..n];
      assert cell[..n + 1] == pieces + [cell[n]];
      JoinLast(pieces, cell[n], ' ');
      assert pieces[0] == cell[0];
      PiecesNonEmpty(pieces);
      if n + 1 == |cell| {
        assert cell[..n + 1] == cell;
      }
    }
  }

  /** One more line of a row makes one more piece in each of its longer cells. */
  lemma MergeNext(width: nat, row: seq<Cell>, n: nat)
    requires PlainRow(width, row) && n > 0
    ensures Merge(Joined(row, n), RowLine(row, n)) == Joined(row, n + 1)
  {
    forall i | 0 <= i < |row|
      ensures MergeCell(Joined(row, n)[i], RowLine(row, n)[i]) == Joined(row, n + 1)[i]
    {
      MergeCellNext(row[i], n);
    }
  }

  lemma FirstJoined(width: nat, row: seq<Cell>)
    requires PlainRow(width, row) && OneNamed(row)
    ensures RowLine(row, 0) == Joined(row, 1) && RowLine(row, 0)[0] != ""
  {
    forall i | 0 <= i < |row|
      ensures RowLine(row, 0)[i] == Joined(row, 1)[i]
    {
      if |row[i]| > 1 {
        assert row[i][..1] == [row[i][0]];
      } else if |row[i]| == 1 {
        assert row[i] == [row[i][0]];
      }
    }
  }

  lemma {:induction false} RowRead(s: State, width: nat, row: seq<Cell>, n: nat)
    requires PlainRow(width, row) && OneNamed(row) && s.headers != [] && n > 0
    ensures Run(s, FirstLines(row, n)) == Success(State(s.headers, Rows(s), Some(Joined(row, n))))
  {
    RunNext(s, FirstLines(row, n - 1), RowLine(row, n - 1));
    if n == 1 {
      FirstJoined(width, row);
      assert FirstLines(row, 0) == [];
      assert Run(s, []) == Success(s);
    } else {
      RowRead(s, width, row, n - 1);
      MergeNext(width, row, n - 1);
      assert RowLine(row, n - 1)[0] == "";
    }
  }

  lemma {:induction false} HeightCovers(row: seq<Cell>)
    ensures forall i :: 0 <= i < |row| ==> |row[i]| <= Height(row)
  {
    if row != [] {
      HeightCovers(row[..|row| - 1]);
    }
  }

  /** Every cell's pieces joined by single spaces. */
  function JoinedRow(row: seq<Cell>): Row {
    seq(|row|, i requires 0 <= i < |row| => Join(row[i], ' '))
  }

  lemma JoinedAll(row: seq<Cell>)
    ensures Joined(row, Height(row)) == JoinedRow(row)
  {
    HeightCovers(row);
    forall i | 0 <= i < |row|
      ensures Joined(row, Height(row))[i] == JoinedRow(row)[i]
    {
    }
  }

  lemma {:induction false} RunConcat(s: State, a: seq<Row>, b: seq<Row>)
    ensures Run(s, a + b) == match Run(s, a) case Failure(e) => Failure(e) case Success(t) => Run(t, b)
  {
    if b == [] {
      assert a + b == a;
    } else {
      var init, last := b[..|b| - 1], b[|b| - 1];
      RunConcat(s, a, init);
      RunNext(s, a + init, last);
      assert a + b == (a + init) + [last];
    }
  }

  function JoinedRows(rows: seq<seq<Cell>>): seq<Row> {
    seq(|rows|, i requires 0 <= i < |rows| => JoinedRow(rows[i]))
  }

  lemma RowTall(row: seq<Cell>)
    requires OneNamed(row)
    ensures Height(row) > 0
  {
    HeightCovers(row);
  }

  lemma OneMoreRow(start: State, lines: seq<Row>, s: State, width: nat, row: seq<Cell>)
    requires Run(start, lines) == Success(s) && s.headers != [] && PlainRow(width, row) && OneNamed(row)
    ensures Run(start, lines + FirstLines(row, Height(row))) == Success(State(s.headers, Rows(s), Some(JoinedRow(row))))
  {
    RowTall(row);
    RowRead(s, width, row, Height(row));
    JoinedAll(row);
    RunConcat(start, lines, FirstLines(row, Height(row)));
  }

  function Below(headers: Row): State {
    State(headers, [], None)
  }

  lemma {:induction false} RowsRead(headers: Row, rows: seq<seq<Cell>>)
    requires headers != [] && AllOneNamed(rows) && forall i :: 0 <= i < |rows| ==> PlainRow(|headers|, rows[i])
    ensures Run(Below(headers), RowsLines(rows)).Success?
    ensures var s := Run(Below(headers), RowsLines(rows)).value;
            s.headers == headers && Rows(s) == JoinedRows(rows)
  {
    if rows != [] {
      var before, row := rows[..|rows| - 1], rows[|rows| - 1];
      RowsRead(headers, before);
      OneMoreRow(Below(headers), RowsLines(before), Run(Below(headers), RowsLines(before)).value, |headers|, row);
      assert JoinedRows(rows) == JoinedRows(before) + [JoinedRow(row)];
    }
  }

  // ---- As many rows are read as there are pieces in the first cells

  /** The header is read, and every row so far is as wide as the table and starts with a name. */
  predicate Named(width: nat, s: State) {
    && s.headers != [] && width > 0
    && forall i :: 0 <= i < |Rows(s)| ==> |Rows(s)[i]| == width && Rows(s)[i][0] != ""
  }

  function Counted(line: Row): nat {
    if line != [] && line[0] != "" then 1 else 0
  }

  function NamedLines(lines: seq<Row>): nat {
    if lines == [] then 0 else NamedLines(lines[..|lines| - 1]) + Counted(lines[|lines| - 1])
  }

  lemma LastRow(s: State)
    requires s.current.Some?
    ensures Rows(s)[|s.rows|] == s.current.value && forall i :: 0 <= i < |s.rows| ==> Rows(s)[i] == s.rows[i]
  {
  }

  lemma StepCounts(width: nat, s: State, line: Row)
    requires Named(width, s) && |line| == width
    ensures var r := Step(s, line);
            r.Success? && Named(width, r.value) && r.value.headers == s.headers && |Rows(r.value)| == |Rows(s)| + Counted(line)
  {
    if s.current.Some? {
      LastRow(s);
      if line[0] == "" {
        LastRow(s.(current := Some(Merge(s.current.value, line))));
      }
    }
  }

  lemma {:induction false} RunCounts(width: nat, s: State, lines: seq<Row>)
    requires Named(width, s) && forall i :: 0 <= i < |lines| ==> |lines[i]| == width
    ensures var r := Run(s, lines);
            r.Success? && Named(width, r.value) && r.value.headers == s.headers && |Rows(r.value)| == |Rows(s)| + NamedLines(lines)
  {
    if lines != [] {
      RunCounts(width, s, lines[..|lines| - 1]);
      StepCounts(width, Run(s, lines[..|lines| - 1]).value, lines[|lines| - 1]);
    }
  }

  lemma {:induction false} NamedConcat(a: seq<Row>, b: seq<Row>)
    ensures NamedLines(a + b) == NamedLines(a) + NamedLines(b)
  {
    if b == [] {
      assert a + b == a;
    } else {
      var init, last := b[..|b| - 1], b[|b| - 1];
      NamedConcat(a, init);
      SplitLast(b);
      ConcatAssociates(a, init, [last]);
      assert ((a + init) + [last])[..|a + init|] == a + init;
    }
  }

  lemma {:induction false} NamedOfRow(width: nat, row: seq<Cell>, n: nat)
    requires PlainRow(width, row)
    ensures NamedLines(FirstLines(row, n)) == if n < |row[0]| then n else |row[0]|
    ensures |FirstLines(row, n)| == n && forall i :: 0 <= i < n ==> |FirstLines(row, n)[i]| == width
  {
    if n > 0 {
      NamedOfRow(width, row, n - 1);
      var before := FirstLines(row, n - 1);
      assert (before + [RowLine(row, n - 1)])[..n - 1] == before;
    }
  }

  function FirstPieces(rows: seq<seq<Cell>>): nat {
    if rows == [] then 0
    else
      var last := rows[|rows| - 1];
      FirstPieces(rows[..|rows| - 1]) + if last == [] then 0 else |last[0]|
  }

  lemma {:induction false} NamedOfRows(width: nat, rows: seq<seq<Cell>>)
    requires forall i :: 0 <= i < |rows| ==> PlainRow(width, rows[i])
    ensures NamedLines(RowsLines(rows)) == FirstPieces(rows)
    ensures forall i :: 0 <= i < |RowsLines(rows)| ==> |RowsLines(rows)[i]| == width
  {
    if rows != [] {
      var before, row := rows[..|rows| - 1], rows[|rows| - 1];
      NamedOfRows(width, before);
      NamedOfRow(width, row, Height(row));
      HeightCovers(row);
      NamedConcat(RowsLines(before), FirstLines(row, Height(row)));
    }
  }

  /** Of n first cells that are not empty, n pieces in all make one each. */
  lemma {:induction false} OnesOnly(rows: seq<seq<Cell>>)
    requires forall i :: 0 <= i < |rows| ==> rows[i] != [] && |rows[i][0]| >= 1
    ensures FirstPieces(rows) >= |rows|
    ensures FirstPieces(rows) == |rows| ==> AllOneNamed(rows)
  {
    if rows != [] {
      var before := rows[..|rows| - 1];
      OnesOnly(before);
      if FirstPieces(rows) == |rows| {
        forall i | 0 <= i < |rows| ensures OneNamed(rows[i]) {
          if i < |before| {
            assert OneNamed(before[i]);
          }
        }
      }
    }
  }

  /** Rows that are read as they were meant have first cells of one piece. */
  lemma RowsReadOnly(headers: Row, rows: seq<seq<Cell>>)
    requires headers != [] && forall i :: 0 <= i < |rows| ==> PlainRow(|headers|, rows[i])
    ensures var r := Run(Below(headers), RowsLines(rows));
            r.Success? && r.value.headers == headers && (Rows(r.value) == JoinedRows(rows) ==> AllOneNamed(rows))
  {
    NamedOfRows(|headers|, rows);
    RunCounts(|headers|, Below(headers), RowsLines(rows));
    var s := Run(Below(headers), RowsLines(rows)).value;
    if Rows(s) == JoinedRows(rows) {
      forall i | 0 <= i < |rows| ensures |rows[i][0]| >= 1 {
        assert Rows(s)[i] == JoinedRow(rows[i]) && Rows(s)[i][0] == Join(rows[i][0], ' ');
      }
      OnesOnly(rows);
    }
  }

  lemma TableRead(t: Table)
    requires Plain(t)
    ensures Run(START, TableLines(t)).Success?
    ensures Finish(Run(START, TableLines(t)).value) == Success(Parsed(HeaderIndex(t.headers), JoinedRows(t.rows)))
            <==> AllOneNamed(t.rows)
  {
    RunConcat(START, [t.headers], RowsLines(t.rows));
    RunNext(START, [], t.headers);
    assert [] + [t.headers] == [t.headers];
    assert Run(START, []) == Success(START);
    assert Run(START, [t.headers]) == Success(Below(t.headers));
    RowsReadOnly(t.headers, t.rows);
    if AllOneNamed(t.rows) {
      RowsRead(t.headers, t.rows);
    }
  }

  /**
   * The round trip: an output whose lines draw the table, with rulers and other lines between them, is read as
   * the table's headers and its cells, every cell's pieces joined by single spaces, if and only if the first
   * cell of every row is one piece.
   */
  lemma RoundTripIff(t: Table, lines: seq<string>, output: string)
    requires Plain(t) && lines != [] && (forall line :: line in lines ==> '\n' !in line)
    requires Draws(lines, TableLines(t)) && TrimSpace(output) == Join(lines, '\n')
    ensures Parse(output) == Success(Parsed(HeaderIndex(t.headers), JoinedRows(t.rows))) <==> AllOneNamed(t.rows)
  {
    SplitJoin(lines, '\n');
    DrawnColumns(lines, TableLines(t));
    TableRead(t);
  }

  /** The index of a header is the last column of that name, and nothing else is indexed. */
  lemma {:induction false} HeaderIndexed(headers: Row, name: string)
    ensures name in HeaderIndex(headers) <==> name in headers
    ensures name in headers ==> HeaderIndex(headers)[name] < |headers| && headers[HeaderIndex(headers)[name]] == name
    ensures name in headers ==> forall i :: HeaderIndex(headers)[name] < i < |headers| ==> headers[i] != name
  {
    if headers != [] {
      HeaderIndexed(headers[..|headers| - 1], name);
      SplitLast(headers);
    }
  }

  /** For example, a name of two pieces is read as two rows. */
  lemma WrappedNameSplits(header: string, first: string, second: string)
    requires first != "" && second != ""
    ensures var t := Table([header], [[[first, second]]]);
            Run(START, TableLines(t)).Success?
            && Rows(Run(START, TableLines(t)).value) == [[first], [second]] != JoinedRows(t.rows)
  {
    var row: seq<Cell> := [[first, second]];
    assert Height(row) == 2 by {
      assert row[..0] == [];
    }
    assert RowLine(row, 0) == [first] && RowLine(row, 1) == [second];
    assert FirstLines(row, 0) == [];
    assert FirstLines(row, 1) == [] + [[first]] == [[first]];
    assert FirstLines(row, 2) == [[first], [second]];
    assert [row][..0] == [];
    assert RowsLines([row]) == [] + FirstLines(row, 2);
    var names := [header];
    var t := Table(names, [row]);
    assert TableLines(t) == ([] + [names]) + [[first]] + [[second]];
    assert Run(START, []) == Success(START);
    RunNext(START, [], names);
    RunNext(START, [] + [names], [first]);
    RunNext(START, ([] + [names]) + [[first]], [second]);
    assert |JoinedRows(t.rows)| == 1;
  }

  // ---- When there is no table

  lemma ColumnsNotEmpty(raw: string)
    ensures Columns(raw).Some? ==> Columns(raw).value != []
  {
  }

  lemma {:induction false} AllColumnsNotEmpty(lines: seq<string>)
    ensures forall k :: 0 <= k < |AllColumns(lines)| ==> AllColumns(lines)[k] != []
    ensures AllColumns(lines) == [] <==> forall k :: 0 <= k < |lines| ==> Columns(lines[k]).None?
  {
    if lines != [] {
      var n := |lines| - 1;
      AllColumnsNotEmpty(lines[..n]);
      ColumnsNotEmpty(lines[n]);
      assert forall k :: 0 <= k < n ==> lines[..n][k] == lines[k];
    }
  }

  lemma {:induction false} RunHasHeaders(rows: seq<Row>)
    requires forall k :: 0 <= k < |rows| ==> rows[k] != []
    ensures Run(START, rows).Success? ==> (Run(START, rows).value.headers == [] <==> rows == [])
    ensures Run(START, rows).Failure? ==> Run(START, rows) == Failure(ColumnOutOfRange)
  {
    if rows != [] {
      var n := |rows| - 1;
      assert forall k :: 0 <= k < n ==> rows[..n][k] == rows[k];
      RunHasHeaders(rows[..n]);
    }
  }

  /** No table is found exactly when no line of the output holds cells. */
  lemma NotFoundIff(output: string, lines: seq<string>)
    requires lines == Split(TrimSpace(output), '\n')
    ensures Parse(output) == Failure(NotFound) <==> forall k :: 0 <= k < |lines| ==> Columns(lines[k]).None?
  {
    AllColumnsNotEmpty(lines);
    ParsedNotFound(output, AllColumns(lines));
  }

  lemma ParsedNotFound(output: string, rows: seq<Row>)
    requires rows == AllColumns(Split(TrimSpace(output), '\n')) && forall k :: 0 <= k < |rows| ==> rows[k] != []
    ensures Parse(output) == Failure(NotFound) <==> rows == []
  {
    RunHasHeaders(rows);
  }

  // ---- When a line is longer than the row it continues

  predicate NoneEmpty(lines: seq<Row>) {
    forall k :: 0 <= k < |lines| ==> lines[k] != []
  }

  /** Line `j` starts the row that is being read before line `n`: no later line names one, and line 0 is the header. */
  predicate RowStart(lines: seq<Row>, j: nat, n: nat)
    requires n <= |lines| && NoneEmpty(lines)
  {
    1 <= j < n && lines[j][0] != "" && forall k :: j < k < n ==> lines[k][0] == ""
  }

  /** Line `i` continues the row that line `j` started, with a piece beyond its cells. */
  predicate Overruns(lines: seq<Row>, j: nat, i: nat)
    requires i < |lines| && NoneEmpty(lines)
  {
    RowStart(lines, j, i) && lines[i][0] == "" && exists k :: |lines[j]| <= k < |lines[i]| && lines[i][k] != ""
  }

  ghost predicate Reading(lines: seq<Row>, n: nat, s: State)
    requires n <= |lines| && NoneEmpty(lines)
  {
    && (s.headers == [] <==> n == 0)
    && match s.current
       case None => forall j: nat :: !RowStart(lines, j, n)
       case Some(row) => exists j: nat :: RowStart(lines, j, n) && |row| == |lines[j]|
  }

  lemma OneRowStart(lines: seq<Row>, i: nat, j: nat, n: nat)
    requires n <= |lines| && NoneEmpty(lines) && RowStart(lines, i, n) && RowStart(lines, j, n)
    ensures i == j
  {
  }

  lemma NextReading(lines: seq<Row>, n: nat, next: nat, s: State)
    requires n < |lines| && next == n + 1 && NoneEmpty(lines) && Reading(lines, n, s)
    ensures Step(s, lines[n]).Failure? <==> exists j: nat :: Overruns(lines, j, n)
    ensures Step(s, lines[n]).Success? ==> Reading(lines, next, Step(s, lines[n]).value)
  {
    if n > 0 && lines[n][0] != "" {
      assert RowStart(lines, n, next);
    } else if s.current.Some? {
      var j: nat :| RowStart(lines, j, n) && |s.current.value| == |lines[j]|;
      assert n > 0 && RowStart(lines, j, next);
      assert Fits(s.current.value, lines[n]) <==> !Overruns(lines, j, n);
      forall i: nat | RowStart(lines, i, n) ensures i == j {
        OneRowStart(lines, i, j, n);
      }
    } else {
      assert forall j: nat :: RowStart(lines, j, next) ==> RowStart(lines, j, n);
    }
  }

  lemma {:induction false} RunReading(lines: seq<Row>, n: nat)
    requires n <= |lines| && NoneEmpty(lines)
    ensures Run(START, lines[..n]).Failure? <==> exists j: nat, i: nat :: i < n && Overruns(lines, j, i)
    ensures Run(START, lines[..n]).Success? ==> Reading(lines, n, Run(START, lines[..n]).value)
  {
    if n == 0 {
      assert lines[..n] == [];
    } else {
      var i: nat := n - 1;
      RunReading(lines, i);
      assert lines[..n] == lines[..i] + [lines[i]];
      RunNext(START, lines[..i], lines[i]);
      if Run(START, lines[..i]).Success? {
        NextReading(lines, i, n, Run(START, lines[..i]).value);
      }
    }
  }

  /** Reading runs out of range exactly when some line has a piece beyond the cells of the row it continues. */
  lemma OutOfRangeIff(output: string, rows: seq<Row>)
    requires rows == AllColumns(Split(TrimSpace(output), '\n'))
    ensures NoneEmpty(rows)
    ensures Parse(output) == Failure(ColumnOutOfRange)
            <==> exists j: nat, i: nat :: i < |rows| && Overruns(rows, j, i)
  {
    AllColumnsNotEmpty(Split(TrimSpace(output), '\n'));
    RunReading(rows, |rows|);
    assert rows[..|rows|] == rows;
    RunHasHeaders(rows);
  }
}
