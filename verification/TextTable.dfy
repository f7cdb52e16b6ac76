/** Tables of text: cells are put row by row, and the columns are as wide as their widest cell. */
module TextTable {
  import opened Options
  import opened ColorText

  /** A cell: its text, the width it has, and the width it had when it was put. */
  datatype Cell = Cell(text: string, width: nat, put: nat)

  type Sheet = seq<seq<Cell>>

  /** Every row but the last is as long as the header, and the last is no longer. */
  predicate Shaped(t: Sheet) {
    && (forall r :: 0 < r < |t| - 1 ==> |t[r]| == |t[0]|)
    && (|t| > 0 ==> |t[|t| - 1]| <= |t[0]|)
  }

  function Max(a: nat, b: nat): nat {
    if a < b then b else a
  }

  /** The widest of the cells put into column c. */
  function Widest(t: Sheet, c: nat): nat {
    if t == [] then 0 else
      var last := t[|t| - 1];
      Max(Widest(t[..|t| - 1], c), if c < |last| then last[c].put else 0)
  }

  function Columns(t: Sheet): (columns: seq<nat>)
    ensures |columns| == if t == [] then 0 else |t[0]|
  {
    if t == [] then [] else seq(|t[0]|, c requires 0 <= c => Widest(t, c))
  }

  // ----- Filling the table -----

  /** A step either goes through, throws, or writes outside the vector of column widths. */
  datatype Outcome = Done | Thrown | Overrun

  datatype Command = StartRow | Put(value: string) | Append(value: string)

  function LastRow(t: Sheet): seq<Cell>
    requires t != []
  {
    t[|t| - 1]
  }

  function WithLast(t: Sheet, row: seq<Cell>): Sheet
    requires t != []
  {
    t[|t| - 1 := row]
  }

  function Started(t: Sheet): (Outcome, Sheet) {
    if |t| > 1 && |LastRow(t)| != |t[0]| then (Thrown, t) else (Done, t + [[]])
  }

  function PutCell(t: Sheet, value: string): (Outcome, Sheet)
    requires t != [] && Width(value).Some?
  {
    var w := Width(value).value;
    if |t| > 1 && |LastRow(t)| > |t[0]| then (Thrown, t)
    else if |t| > 1 && |LastRow(t)| == |t[0]| then (Overrun, t)
    else (Done, WithLast(t, LastRow(t) + [Cell(value, w, w)]))
  }

  function Appended(t: Sheet, value: string): (Outcome, Sheet)
    requires t != [] && LastRow(t) != [] && Width(value).Some?
  {
    var row := LastRow(t);
    var n := |row| - 1;
    var cell := Cell(row[n].text + value, row[n].width + Width(value).value, row[n].put);
    (Done, WithLast(t, row[n := cell]))
  }

  /** The command does not write before the first row or behind a missing cell, or measure an open
      colour code. */
  predicate Allowed(t: Sheet, c: Command) {
    match c
    case StartRow => true
    case Put(value) => t != [] && Width(value).Some?
    case Append(value) => t != [] && LastRow(t) != [] && Width(value).Some?
  }

  function Step(t: Sheet, c: Command): (Outcome, Sheet)
    requires Allowed(t, c)
  {
    match c
    case StartRow => Started(t)
    case Put(value) => PutCell(t, value)
    case Append(value) => Appended(t, value)
  }

  lemma StepKeepsShape(t: Sheet, c: Command)
    requires Shaped(t) && Allowed(t, c)
    ensures Shaped(Step(t, c).1)
  {
  }

  /** The guard of put is off by one: where no stray write came before, the exception is not thrown, and a
      cell put into a full row is written outside the table. */
  lemma PutOverrunsExactly(t: Sheet, value: string)
    requires Shaped(t) && t != [] && Width(value).Some?
    ensures PutCell(t, value).0 != Thrown
    ensures PutCell(t, value).0 == Overrun <==> |t| > 1 && |LastRow(t)| == |t[0]|
  {
  }

  /** What a stray write leaves of the rows, should the program go on: the cell is in its row before the
      width is written outside the vector. */
  function Stray(t: Sheet, value: string): Sheet
    requires t != [] && Width(value).Some?
  {
    WithLast(t, LastRow(t) + [Cell(value, Width(value).value, Width(value).value)])
  }

  /** Only the put after a stray write throws. */
  lemma PutThrowsAfterStray(t: Sheet, value: string, more: string)
    requires Shaped(t) && t != [] && Width(value).Some? && Width(more).Some?
    ensures PutCell(t, value).0 == Overrun ==> PutCell(Stray(t, value), more).0 == Thrown
    ensures PutCell(t, value).0 == Done ==>
            Stray(t, value) == PutCell(t, value).1 && PutCell(Stray(t, value), more).0 != Thrown
  {
  }

  // ----- Layout -----

  function Bar(mysql: bool): string {
    if mysql then "|" else " "
  }

  function Corner(mysql: bool): string {
    if mysql then "+" else "-"
  }

  function Border(columns: seq<nat>, mysql: bool): string {
    if columns == [] then Corner(mysql)
    else Corner(mysql) + Repeat("-", columns[0] + 2) + Border(columns[1..], mysql)
  }

  function Padded(cell: Cell, column: nat, mysql: bool): string {
    Bar(mysql) + " " + cell.text + Repeat(" ", column - cell.width + 1)
  }

  function RowText(row: seq<Cell>, columns: seq<nat>, mysql: bool): string
    requires |row| == |columns|
  {
    if row == [] then Bar(mysql) else Padded(row[0], columns[0], mysql) + RowText(row[1..], columns[1..], mysql)
  }

  function RowTexts(rows: Sheet, columns: seq<nat>, mysql: bool): seq<string>
    requires forall r :: 0 <= r < |rows| ==> |rows[r]| == |columns|
  {
    if rows == [] then [] else [RowText(rows[0], columns, mysql)] + RowTexts(rows[1..], columns, mysql)
  }

  predicate Full(t: Sheet) {
    forall r :: 0 <= r < |t| ==> |t[r]| == |t[0]|
  }

  /** The lines of a full table. */
  function Lines(t: Sheet, mysql: bool): seq<string>
    requires t != [] && Full(t)
  {
    var columns := Columns(t);
    var border := [Border(columns, mysql)];
    (if mysql then border else []) + [RowText(t[0], columns, mysql)] + border
    + RowTexts(t[1..], columns, mysql) + (if mysql then border else [])
  }

  function Joined(lines: seq<string>): string {
    if lines == [] then "" else lines[0] + "\n" + Joined(lines[1..])
  }

  /** build: nothing for an empty header, and an exception for a row of another length. */
  function Built(t: Sheet, mysql: bool): Option<string> {
    if t == [] || t[0] == [] then Some("")
    else if Full(t) then Some(Joined(Lines(t, mysql)))
    else None
  }

  // ----- Widths of lines -----

  function Total(columns: seq<nat>): nat {
    if columns == [] then 0 else columns[0] + 3 + Total(columns[1..])
  }

  /** By how much a cell reaches beyond its column and the space behind it. */
  function Excess(cell: Cell, column: nat): nat {
    if cell.width > column + 1 then cell.width - column - 1 else 0
  }

  function RowExcess(row: seq<Cell>, columns: seq<nat>): nat
    requires |row| == |columns|
  {
    if row == [] then 0 else Excess(row[0], columns[0]) + RowExcess(row[1..], columns[1..])
  }

  /** The recorded width is the width on the screen. */
  predicate Honest(cell: Cell) {
    Closed(cell.text) && Width(cell.text) == Some(cell.width)
  }

  predicate AllHonest(row: seq<Cell>) {
    forall c :: 0 <= c < |row| ==> Honest(row[c])
  }

  lemma {:induction false} BorderWidth(columns: seq<nat>, mysql: bool)
    ensures Closed(Border(columns, mysql)) && Width(Border(columns, mysql)) == Some(Total(columns) + 1)
  {
    var corner := Corner(mysql);
    assert corner[1..] == [];
    if columns != [] {
      var dashes := Repeat("-", columns[0] + 2);
      OneLetter('-');
      RepeatWidth("-", columns[0] + 2);
      WidthsAdd(corner, dashes);
      BorderWidth(columns[1..], mysql);
      WidthsAdd(corner + dashes, Border(columns[1..], mysql));
    }
  }

  lemma BarWidth(mysql: bool)
    ensures Closed(Bar(mysql)) && Width(Bar(mysql)) == Some(1)
    ensures Closed(Bar(mysql) + " ") && Width(Bar(mysql) + " ") == Some(2)
  {
  }

  lemma PaddedWidth(cell: Cell, column: nat, mysql: bool)
    requires Honest(cell)
    ensures Closed(Padded(cell, column, mysql))
    ensures Width(Padded(cell, column, mysql)) == Some(column + 3 + Excess(cell, column))
  {
    hide Closed, Width, Repeat;
    var spaces := Repeat(" ", column - cell.width + 1);
    OneLetter(' ');
    RepeatWidth(" ", column - cell.width + 1);
    BarWidth(mysql);
    WidthsAdd(Bar(mysql) + " ", cell.text);
    WidthsAdd(Bar(mysql) + " " + cell.text, spaces);
  }

  lemma {:induction false} RowWidth(row: seq<Cell>, columns: seq<nat>, mysql: bool)
    requires |row| == |columns| && AllHonest(row)
    ensures Closed(RowText(row, columns, mysql))
    ensures Width(RowText(row, columns, mysql)) == Some(Total(columns) + RowExcess(row, columns) + 1)
  {
    hide Closed, Width, Repeat;
    BarWidth(mysql);
    if row != [] {
      PaddedWidth(row[0], columns[0], mysql);
      RowWidth(row[1..], columns[1..], mysql);
      WidthsAdd(Padded(row[0], columns[0], mysql), RowText(row[1..], columns[1..], mysql));
    }
  }

  lemma {:induction false} NoExcess(row: seq<Cell>, columns: seq<nat>)
    requires |row| == |columns|
    ensures RowExcess(row, columns) == 0 <==> forall c :: 0 <= c < |row| ==> row[c].width <= columns[c] + 1
  {
    if row != [] {
      NoExcess(row[1..], columns[1..]);
      if RowExcess(row, columns) == 0 {
        forall c | 0 <= c < |row| ensures row[c].width <= columns[c] + 1 {
          if c > 0 { assert row[1..][c - 1].width <= columns[1..][c - 1] + 1; }
        }
      } else if RowExcess(row[1..], columns[1..]) != 0 {
        var c :| 0 <= c < |row[1..]| && row[1..][c].width > columns[1..][c] + 1;
        assert row[c + 1].width > columns[c + 1] + 1;
      }
    }
  }

  /** No cell of the table is more than one wider than its column. */
  predicate Fits(t: Sheet)
    requires t != [] && Full(t)
  {
    forall r, c :: 0 <= r < |t| && 0 <= c < |t[0]| ==> t[r][c].width <= Widest(t, c) + 1
  }

  predicate AllWide(lines: seq<string>, width: nat) {
    forall i :: 0 <= i < |lines| ==> Width(lines[i]) == Some(width)
  }

  lemma WideTogether(a: seq<string>, b: seq<string>, width: nat)
    ensures AllWide(a + b, width) <==> AllWide(a, width) && AllWide(b, width)
  {
    if AllWide(a + b, width) {
      forall i | 0 <= i < |a| ensures Width(a[i]) == Some(width) { assert (a + b)[i] == a[i]; }
      forall i | 0 <= i < |b| ensures Width(b[i]) == Some(width) { assert (a + b)[|a| + i] == b[i]; }
    }
  }

  lemma RowWide(row: seq<Cell>, columns: seq<nat>, mysql: bool)
    requires |row| == |columns| && AllHonest(row)
    ensures Width(RowText(row, columns, mysql)) == Some(Total(columns) + 1) <==> RowExcess(row, columns) == 0
  {
    RowWidth(row, columns, mysql);
  }

  lemma {:induction false} RowsWide(rows: Sheet, columns: seq<nat>, mysql: bool)
    requires forall r :: 0 <= r < |rows| ==> |rows[r]| == |columns| && AllHonest(rows[r])
    ensures AllWide(RowTexts(rows, columns, mysql), Total(columns) + 1) <==>
            forall r :: 0 <= r < |rows| ==> RowExcess(rows[r], columns) == 0
  {
    if rows != [] {
      var first, rest := RowText(rows[0], columns, mysql), RowTexts(rows[1..], columns, mysql);
      RowWide(rows[0], columns, mysql);
      RowsWide(rows[1..], columns, mysql);
      WideTogether([first], rest, Total(columns) + 1);
      OneWide(first, Total(columns) + 1);
      assert rows == [rows[0]] + rows[1..];
      assert RowTexts(rows, columns, mysql) == [first] + rest;
    }
  }

  lemma OneWide(line: string, width: nat)
    ensures AllWide([line], width) <==> Width(line) == Some(width)
    ensures AllWide([], width)
  {
    assert AllWide([line], width) ==> Width([line][0]) == Some(width);
  }

  lemma FitsIsNoExcess(t: Sheet)
    requires t != [] && Full(t)
    ensures Fits(t) <==> forall r :: 0 <= r < |t| ==> RowExcess(t[r], Columns(t)) == 0
  {
    forall r | 0 <= r < |t|
      ensures RowExcess(t[r], Columns(t)) == 0 <==>
              forall c :: 0 <= c < |t[0]| ==> t[r][c].width <= Widest(t, c) + 1
    {
      NoExcess(t[r], Columns(t));
      assert forall c :: 0 <= c < |t[0]| ==> Columns(t)[c] == Widest(t, c);
    }
  }

  /** All lines of a full table are equally wide, the sum of column widths, 3 to each, and 1, exactly
      when no cell is more than one wider than its column. */
  lemma LinesEquallyWide(t: Sheet, mysql: bool)
    requires t != [] && Full(t) && forall r :: 0 <= r < |t| ==> AllHonest(t[r])
    ensures AllWide(Lines(t, mysql), Total(Columns(t)) + 1) <==> Fits(t)
  {
    hide AllWide, Fits, RowText, RowTexts, RowExcess, Columns, Width, Border, Total, AllHonest;
    var columns, w := Columns(t), Total(Columns(t)) + 1;
    var border, first := Border(columns, mysql), RowText(t[0], columns, mysql);
    var rest := RowTexts(t[1..], columns, mysql);
    var top := if mysql then [border] else [];
    BorderWidth(columns, mysql);
    OneWide(border, w);
    RowWide(t[0], columns, mysql);
    OneWide(first, w);
    RowsWide(t[1..], columns, mysql);
    FitsIsNoExcess(t);
    WideTogether(top + [first] + [border] + rest, top, w);
    WideTogether(top + [first] + [border], rest, w);
    WideTogether(top + [first], [border], w);
    WideTogether(top, [first], w);
    assert forall r :: 0 < r < |t| ==> t[1..][r - 1] == t[r];
  }

  // ----- Runs -----

  lemma {:induction false} WidestIsLeast(t: Sheet, c: nat)
    ensures forall r :: 0 <= r < |t| && c < |t[r]| ==> t[r][c].put <= Widest(t, c)
    ensures Widest(t, c) == 0 || exists r :: 0 <= r < |t| && c < |t[r]| && t[r][c].put == Widest(t, c)
  {
    if t != [] {
      var n := |t| - 1;
      WidestIsLeast(t[..n], c);
      forall r | 0 <= r < |t| && c < |t[r]| ensures t[r][c].put <= Widest(t, c) {
        if r < n { assert t[..n][r] == t[r]; }
      }
      if Widest(t, c) != 0 {
        if c < |t[n]| && t[n][c].put == Widest(t, c) {
        } else {
          var r :| 0 <= r < n && c < |t[..n][r]| && t[..n][r][c].put == Widest(t[..n], c);
          assert t[r] == t[..n][r];
        }
      }
    }
  }

  /** The commands that go through, one after the other; None at an exception or a stray write. */
  function Run(t: Sheet, cs: seq<Command>): Option<Sheet>
    decreases |cs|
  {
    if cs == [] then Some(t)
    else if !Allowed(t, cs[0]) || Step(t, cs[0]).0 != Done then None
    else Run(Step(t, cs[0]).1, cs[1..])
  }

  predicate PutsOnly(cs: seq<Command>) {
    forall i :: 0 <= i < |cs| ==> !cs[i].Append? && (cs[i].Put? ==> Closed(cs[i].value))
  }

  predicate Untouched(t: Sheet) {
    forall r, c :: 0 <= r < |t| && 0 <= c < |t[r]| ==> Honest(t[r][c]) && t[r][c].width == t[r][c].put
  }

  lemma {:induction false} RunUntouched(t: Sheet, cs: seq<Command>)
    requires Shaped(t) && Untouched(t) && PutsOnly(cs) && Run(t, cs).Some?
    ensures Shaped(Run(t, cs).value) && Untouched(Run(t, cs).value)
    decreases |cs|
  {
    if cs != [] {
      StepKeepsShape(t, cs[0]);
      var n := Step(t, cs[0]).1;
      assert PutsOnly(cs[1..]);
      assert Untouched(n);
      RunUntouched(n, cs[1..]);
    }
  }

  /** After every run of row starts and puts of closed texts, an exception or stray write aside: build
      throws exactly when the last row was left short, and otherwise all its lines are equally wide. */
  lemma BuildIsAligned(cs: seq<Command>, mysql: bool)
    requires PutsOnly(cs) && Run([], cs).Some?
    ensures var t := Run([], cs).value;
            && (Built(t, mysql).None? <==> t != [] && t[0] != [] && |LastRow(t)| < |t[0]|)
            && (t != [] && Full(t) ==> AllWide(Lines(t, mysql), Total(Columns(t)) + 1))
  {
    RunUntouched([], cs);
    var t := Run([], cs).value;
    if t != [] && Full(t) {
      forall r, c | 0 <= r < |t| && 0 <= c < |t[0]| ensures t[r][c].width <= Widest(t, c) + 1 {
        WidestIsLeast(t, c);
        assert |t[r]| == |t[0]|;
      }
      assert Fits(t);
      LinesEquallyWide(t, mysql);
    }
  }

  predicate ClosedValues(cs: seq<Command>) {
    forall i :: 0 <= i < |cs| ==> (cs[i].Put? || cs[i].Append? ==> Closed(cs[i].value))
  }

  predicate HonestSheet(t: Sheet) {
    forall r :: 0 <= r < |t| ==> AllHonest(t[r])
  }

  lemma StepKeepsHonest(t: Sheet, c: Command)
    requires Allowed(t, c) && HonestSheet(t) && ClosedValues([c])
    ensures HonestSheet(Step(t, c).1)
  {
    assert [c][0] == c;
    if t != [] && c.Append? {
      var row := LastRow(t);
      WidthsAdd(row[|row| - 1].text, c.value);
    }
  }

  lemma {:induction false} RunKeepsHonest(t: Sheet, cs: seq<Command>)
    requires HonestSheet(t) && ClosedValues(cs) && Run(t, cs).Some?
    ensures HonestSheet(Run(t, cs).value)
    decreases |cs|
  {
    if cs != [] {
      StepKeepsHonest(t, cs[0]);
      RunKeepsHonest(Step(t, cs[0]).1, cs[1..]);
    }
  }

  /** With appended texts as well: append does not widen the column, and the lines are equally wide
      exactly when no cell has outgrown its column by more than the space behind it. */
  lemma AppendedIsAlignedIffFits(cs: seq<Command>, mysql: bool)
    requires ClosedValues(cs) && Run([], cs).Some?
    ensures var t := Run([], cs).value;
            t != [] && Full(t) ==> (AllWide(Lines(t, mysql), Total(Columns(t)) + 1) <==> Fits(t))
  {
    RunKeepsHonest([], cs);
    var t := Run([], cs).value;
    if t != [] && Full(t) {
      LinesEquallyWide(t, mysql);
    }
  }

  /** Cell c of a row starts behind the c columns before it, whatever the cells hold that fit there. */
  lemma {:induction false} CellStarts(row: seq<Cell>, columns: seq<nat>, mysql: bool, c: nat)
    returns (lead: string, rest: string)
    requires |row| == |columns| && AllHonest(row) && c < |row|
    requires forall k :: 0 <= k < c ==> row[k].width <= columns[k] + 1
    ensures RowText(row, columns, mysql) == lead + row[c].text + rest
    ensures Closed(lead) && Width(lead) == Some(Total(columns[..c]) + 2)
  {
    hide Closed, Width, Repeat;
    if c == 0 {
      BarWidth(mysql);
      lead := Bar(mysql) + " ";
      rest := Repeat(" ", columns[0] - row[0].width + 1) + RowText(row[1..], columns[1..], mysql);
    } else {
      var more;
      more, rest := CellStarts(row[1..], columns[1..], mysql, c - 1);
      var first := Padded(row[0], columns[0], mysql);
      lead := first + more;
      PaddedWidth(row[0], columns[0], mysql);
      WidthsAdd(first, more);
      assert columns[..c][1..] == columns[1..][..c - 1];
    }
  }

  // ----- The rows and lines, one by one -----

  /** startRow throws for a short row before, and otherwise adds an empty one; put adds a cell to the last
      row; append lengthens the last cell of the last row. No other cell changes. */
  lemma StepMeans(t: Sheet, value: string, w: nat)
    requires Width(value) == Some(w)
    ensures var (o, n) := Step(t, StartRow);
            if |t| > 1 && |t[|t| - 1]| != |t[0]| then o == Thrown && n == t
            else o == Done && |n| == |t| + 1 && n[..|t|] == t && n[|t|] == []
    ensures t != [] && (|t| > 1 ==> |t[|t| - 1]| < |t[0]|) ==>
              var (o, n) := Step(t, Put(value));
              var last := |t| - 1;
              && o == Done && |n| == |t| && n[..last] == t[..last]
              && n[last] == t[last] + [Cell(value, w, w)]
    ensures t != [] && t[|t| - 1] != [] ==>
              var (o, n) := Step(t, Append(value));
              var r, c := |t| - 1, |t[|t| - 1]| - 1;
              && o == Done && |n| == |t| && n[..r] == t[..r] && |n[r]| == c + 1 && n[r][..c] == t[r][..c]
              && n[r][c] == Cell(t[r][c].text + value, t[r][c].width + w, t[r][c].put)
  {
  }

  lemma {:induction false} RepeatMeans(c: char, times: int)
    ensures |Repeat([c], times)| == (if times > 0 then times else 0)
    ensures forall i :: 0 <= i < |Repeat([c], times)| ==> Repeat([c], times)[i] == c
  {
    if times > 0 { RepeatMeans(c, times - 1); }
  }

  /** A border is dashes, but for a plus at each end of a column in the format of MySQL. */
  lemma {:induction false} BorderMeans(columns: seq<nat>, mysql: bool)
    ensures var s, n := Border(columns, mysql), if columns == [] then 0 else columns[0] + 3;
            && |s| > n && s[0] == (if mysql then '+' else '-') && (forall i :: 0 < i < n ==> s[i] == '-')
            && s[n..] == (if columns == [] then s else Border(columns[1..], mysql)) && (columns == [] ==> |s| == 1)
  {
    if columns != [] {
      RepeatMeans('-', columns[0] + 2);
      BorderMeans(columns[1..], mysql);
    }
  }

  /** A row is a bar, a space and a text for each cell, with spaces up to one more than the column is wide,
      and a bar behind the last. */
  lemma RowMeans(row: seq<Cell>, columns: seq<nat>, mysql: bool) returns (spaces: string)
    requires |row| == |columns|
    ensures var bar, s := if mysql then '|' else ' ', RowText(row, columns, mysql);
            if row == [] then s == [bar]
            else s == [bar, ' '] + row[0].text + spaces + RowText(row[1..], columns[1..], mysql)
    ensures forall i :: 0 <= i < |spaces| ==> spaces[i] == ' '
    ensures row != [] ==> |spaces| == if columns[0] + 1 > row[0].width then columns[0] + 1 - row[0].width else 0
  {
    if row == [] {
      spaces := "";
    } else {
      spaces := Repeat(" ", columns[0] - row[0].width + 1);
      RepeatMeans(' ', columns[0] - row[0].width + 1);
      assert Bar(mysql) + " " == [if mysql then '|' else ' ', ' '];
    }
  }

  /** The lines of a table are the header, a border and the rows, between two more borders in the
      format of MySQL. */
  lemma LinesMean(t: Sheet, mysql: bool)
    requires t != [] && Full(t)
    ensures var s, columns, top := Lines(t, mysql), Columns(t), if mysql then 1 else 0;
            && |s| == |t| + 1 + 2 * top
            && s[top] == RowText(t[0], columns, mysql) && s[top + 1] == Border(columns, mysql)
            && (forall r :: 0 < r < |t| ==> s[top + 1 + r] == RowText(t[r], columns, mysql))
            && (mysql ==> s[0] == s[|s| - 1] == Border(columns, mysql))
  {
    hide Columns, RowText, Border;
    RowTextsAt(t[1..], Columns(t), mysql);
    assert forall r :: 0 < r < |t| ==> t[1..][r - 1] == t[r];
  }

  lemma {:induction false} RowTextsAt(rows: Sheet, columns: seq<nat>, mysql: bool)
    requires forall r :: 0 <= r < |rows| ==> |rows[r]| == |columns|
    ensures |RowTexts(rows, columns, mysql)| == |rows|
    ensures forall r :: 0 <= r < |rows| ==> RowTexts(rows, columns, mysql)[r] == RowText(rows[r], columns, mysql)
  {
    if rows != [] { RowTextsAt(rows[1..], columns, mysql); }
  }

  /** build gives nothing for a table without a header cell, throws for a row of another length, and
      otherwise gives the lines, each with a newline behind it. */
  lemma BuildMeans(t: Sheet, mysql: bool, line: string)
    ensures t == [] || t[0] == [] ==> Built(t, mysql) == Some("")
    ensures t != [] && t[0] != [] ==> (Built(t, mysql) == None <==> exists r :: 0 <= r < |t| && |t[r]| != |t[0]|)
    ensures t != [] && t[0] != [] && Full(t) ==> Built(t, mysql) == Some(Joined(Lines(t, mysql)))
    ensures Joined([]) == "" && Joined([line]) == line + "\n"
  {
    assert Joined([line]) == line + "\n" + Joined([]);
  }

  // ----- Where it goes wrong -----

  lemma RunNext(t: Sheet, c: Command, cs: seq<Command>)
    requires Allowed(t, c) && Step(t, c).0 == Done
    ensures Run(t, [c] + cs) == Run(Step(t, c).1, cs)
  {
    assert ([c] + cs)[1..] == cs;
  }

  /** A header of one cell, and a row of one. */
  lemma OneByOne(rest: seq<Command>) returns (t: Sheet)
    ensures t == [[Cell("a", 1, 1)], [Cell("b", 1, 1)]]
    ensures Run([], [StartRow] + ([Put("a")] + ([StartRow] + ([Put("b")] + rest)))) == Run(t, rest)
  {
    OneLetter('a');
    OneLetter('b');
    var a, b := Cell("a", 1, 1), Cell("b", 1, 1);
    t := [[a], [b]];
    assert [] + [a] == [a] && [] + [b] == [b] && WithLast([[a], []], [b]) == t;
    assert Step([], StartRow).1 == [[]] && Step([[]], Put("a")).1 == [[a]];
    assert Step([[a]], StartRow).1 == [[a], []] && Step([[a], []], Put("b")).1 == t;
    RunNext([[a], []], Put("b"), rest);
    RunNext([[a]], StartRow, [Put("b")] + rest);
    RunNext([[]], Put("a"), [StartRow] + ([Put("b")] + rest));
    RunNext([], StartRow, [Put("a")] + ([StartRow] + ([Put("b")] + rest)));
  }

  /** One cell more is written outside the table. */
  lemma SecondCellOverruns()
    ensures var t := Run([], [StartRow] + ([Put("a")] + ([StartRow] + ([Put("b")] + []))));
            t.Some? && Allowed(t.value, Put("c")) && Step(t.value, Put("c")).0 == Overrun
  {
    var t := OneByOne([]);
    OneLetter('c');
  }

  /** Two letters appended to the only cell below the header, and the lines differ in width. */
  lemma AppendMisaligns(mysql: bool)
    ensures var t := Run([], [StartRow] + ([Put("a")] + ([StartRow] + ([Put("b")] + ([Append("cd")] + [])))));
            && t.Some? && t.value != [] && Full(t.value)
            && !AllWide(Lines(t.value, mysql), Total(Columns(t.value)) + 1)
  {
    var t := OneByOne([Append("cd")] + []);
    assert "cd"[1..] == "d" && "d"[1..] == "";
    RunNext(t, Append("cd"), []);
    var n: Sheet := Step(t, Append("cd")).1;
    var cs := [StartRow] + ([Put("a")] + ([StartRow] + ([Put("b")] + ([Append("cd")] + []))));
    assert Run([], cs) == Some(n) && n[1][0].width == 3;
    assert n[..1][..0] == [] && Widest(n[..1], 0) == 1 && Widest(n, 0) == 1;
    assert !Fits(n);
    AppendedIsAlignedIffFits(cs, mysql);
  }
}
