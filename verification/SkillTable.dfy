/** Reading a box-drawn table whose cells wrap over several lines. */
module SkillTables {
  import opened Text

  const BAR: char := '\U{2502}'
  const HEAVY_BAR: char := '\U{2503}'

  datatype TableError = NotFound | ColumnOutOfRange

  type Row = seq<string>

  datatype State = State(headers: Row, rows: seq<Row>, current: Option<Row>)

  datatype Parsed = Parsed(headerIndex: map<string, nat>, rows: seq<Row>)

  predicate FramedBy(line: string, bar: char) {
    line != "" && line[0] == bar && line[|line| - 1] == bar
  }

  function LightChar(c: char): char {
    if c == HEAVY_BAR then BAR else c
  }

  function Light(line: string): (r: string)
    ensures |r| == |line| && forall i :: 0 <= i < |line| ==> r[i] == LightChar(line[i])
  {
    seq(|line|, i requires 0 <= i < |line| => LightChar(line[i]))
  }

  /** The cells of a line between its bars; other lines hold none. */
  function Columns(raw: string): Option<Row> {
    var line := TrimSpace(raw);
    if !FramedBy(line, BAR) && !FramedBy(line, HEAVY_BAR) then None
    else
      var parts := Split(Light(line), BAR);
      if |parts| < 3 then None else Some(TrimAll(parts[1..|parts| - 1]))
  }

  /** A wrapped line's pieces joined to the cells above them; a piece beyond the row's cells is out of range. */
  predicate Fits(current: Row, cols: Row) {
    forall i :: |current| <= i < |cols| ==> cols[i] == ""
  }

  function MergeCell(current: string, piece: string): string {
    if piece == "" then current else if current == "" then piece else current + " " + piece
  }

  function Merge(current: Row, cols: Row): Row {
    seq(|current|, i requires 0 <= i < |current| => MergeCell(current[i], if i < |cols| then cols[i] else ""))
  }

  function Rows(s: State): seq<Row> {
    if s.current.Some? then s.rows + [s.current.value] else s.rows
  }

  function Step(s: State, cols: Row): Result<State, TableError> {
    if s.headers == [] then Success(s.(headers := cols))
    else if cols != [] && cols[0] != "" then Success(State(s.headers, Rows(s), Some(cols)))
    else if s.current.None? then Success(s)
    else if !Fits(s.current.value, cols) then Failure(ColumnOutOfRange)
    else Success(s.(current := Some(Merge(s.current.value, cols))))
  }

  function Run(s: State, lines: seq<Row>): Result<State, TableError> {
    if lines == [] then Success(s)
    else match Run(s, lines[..|lines| - 1])
         case Failure(e) => Failure(e)
         case Success(t) => Step(t, lines[|lines| - 1])
  }

  /** The lines that hold cells, in order. */
  function AllColumns(lines: seq<string>): seq<Row> {
    if lines == [] then []
    else
      var before, last := AllColumns(lines[..|lines| - 1]), Columns(lines[|lines| - 1]);
      if last.Some? then before + [last.value] else before
  }

  function HeaderIndex(headers: Row): map<string, nat> {
    if headers == [] then map[]
    else HeaderIndex(headers[..|headers| - 1])[headers[|headers| - 1] := |headers| - 1]
  }

  function Finish(s: State): Result<Parsed, TableError> {
    if s.headers == [] then Failure(NotFound) else Success(Parsed(HeaderIndex(s.headers), Rows(s)))
  }

  const START := State([], [], None)

  function Parse(output: string): Result<Parsed, TableError> {
    match Run(START, AllColumns(Split(TrimSpace(output), '\n')))
    case Failure(e) => Failure(e)
    case Success(s) => Finish(s)
  }

  method ParseTable(output: string) returns (result: Result<Parsed, TableError>)
    ensures result == Parse(output)
  {
    var lines := Split(TrimSpace(output), '\n');
    var headers: Row, rows: seq<Row>, current: Option<Row> := [], [], None;
    for i := 0 to |lines|
      invariant Run(START, AllColumns(lines[..i])) == Success(State(headers, rows, current))
    {
      RunLine(lines, i);
      var cols := Columns(lines[i]);
      if cols.None? {
        continue;
      }
      if headers == [] {
        headers := cols.value;
        continue;
      }
      if cols.value != [] && cols.value[0] != "" {
        if current.Some? {
          rows := rows + [current.value];
        }
        current := cols;
        continue;
      }
      if current.None? {
        continue;
      }
      if !Fits(current.value, cols.value) {
        RunFails(lines, i + 1);
        return Failure(ColumnOutOfRange);
      }
      var merged := MergeLine(current.value, cols.value);
      current := Some(merged);
    }
    assert lines[..|lines|] == lines;
    if current.Some? {
      rows := rows + [current.value];
    }
    if headers == [] {
      return Failure(NotFound);
    }
    var headerIndex := IndexHeaders(headers);
    result := Success(Parsed(headerIndex, rows));
  }

  method IndexHeaders(headers: Row) returns (headerIndex: map<string, nat>)
    ensures headerIndex == HeaderIndex(headers)
  {
    headerIndex := map[];
    for i := 0 to |headers|
      invariant headerIndex == HeaderIndex(headers[..i])
    {
      assert headers[..i + 1][..i] == headers[..i];
      headerIndex := headerIndex[headers[i] := i];
    }
    assert headers[..|headers|] == headers;
  }

  /** The inner loop: piece by piece into the current row. */
  method MergeLine(current: Row, cols: Row) returns (merged: Row)
    requires Fits(current, cols)
    ensures merged == Merge(current, cols)
  {
    merged := current;
    for i := 0 to |cols|
      invariant |merged| == |current|
      invariant forall k :: 0 <= k < |current| ==>
                  merged[k] == if k < i then MergeCell(current[k], cols[k]) else current[k]
    {
      if cols[i] == "" {
        continue;
      }
      if merged[i] == "" {
        merged := merged[i := cols[i]];
        continue;
      }
      merged := merged[i := merged[i] + " " + cols[i]];
    }
  }

  lemma RunNext(s: State, lines: seq<Row>, last: Row)
    ensures Run(s, lines + [last])
            == match Run(s, lines) case Failure(e) => Failure(e) case Success(t) => Step(t, last)
  {
    assert (lines + [last])[..|lines|] == lines;
  }

  lemma RunLine(lines: seq<string>, i: nat)
    requires i < |lines| && Run(START, AllColumns(lines[..i])).Success?
    ensures var before := Run(START, AllColumns(lines[..i])).value;
            Run(START, AllColumns(lines[..i + 1]))
            == match Columns(lines[i]) case None => Success(before) case Some(cols) => Step(before, cols)
  {
    assert lines[..i + 1][..i] == lines[..i];
    if Columns(lines[i]).Some? {
      RunNext(START, AllColumns(lines[..i]), Columns(lines[i]).value);
    }
  }

  lemma {:induction false} RunFails(lines: seq<string>, i: nat)
    requires i <= |lines| && Run(START, AllColumns(lines[..i])).Failure?
    ensures Run(START, AllColumns(lines)) == Run(START, AllColumns(lines[..i]))
  {
    if i == |lines| {
      assert lines[..i] == lines;
    } else {
      var init := lines[..|lines| - 1];
      assert init[..i] == lines[..i];
      RunFails(init, i);
      if Columns(lines[|lines| - 1]).Some? {
        RunNext(START, AllColumns(init), Columns(lines[|lines| - 1]).value);
      }
    }
  }
}
