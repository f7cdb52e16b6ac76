/** The builder of text tables: its vectors, and the loops that lay the table out. */
module TextTableBuilders {
  import opened Options
  import opened ColorText
  import opened TextTable

  lemma ColumnsOfStart(t: Sheet)
    ensures Columns(t + [[]]) == Columns(t)
  {
  }

  lemma WidestOfLast(t: Sheet, row: seq<Cell>, c: nat)
    requires t != []
    ensures Widest(WithLast(t, row), c) == Max(Widest(t[..|t| - 1], c), if c < |row| then row[c].put else 0)
  {
  }

  lemma ColumnsOfPut(t: Sheet, value: string)
    requires Shaped(t) && t != [] && Width(value).Some? && PutCell(t, value).0 == Done
    ensures var columns, n, w := Columns(t), |LastRow(t)|, Width(value).value;
            Columns(PutCell(t, value).1) ==
            if |t| == 1 then columns + [w] else columns[n := Max(columns[n], w)]
  {
    var row := LastRow(t);
    var cell := Cell(value, Width(value).value, Width(value).value);
    var next := WithLast(t, row + [cell]);
    forall c | 0 <= c < |next[0]|
      ensures Widest(next, c) == if c == |row| then Max(Widest(t, c), cell.put) else Widest(t, c)
    {
      WidestOfLast(t, row, c);
      WidestOfLast(t, row + [cell], c);
      assert WithLast(t, row) == t;
    }
    if |t| == 1 {
      WidestOfLast(t, row, |row|);
      assert t[..0] == [] && WithLast(t, row) == t;
      assert Widest(t, |row|) == 0;
    }
  }

  lemma ColumnsOfAppend(t: Sheet, value: string)
    requires t != [] && LastRow(t) != [] && Width(value).Some?
    ensures Columns(Appended(t, value).1) == Columns(t)
  {
  }

  lemma BorderNext(columns: seq<nat>, i: nat, mysql: bool, buffer: string)
    requires i < |columns|
    ensures buffer + Border(columns[i..], mysql) ==
            buffer + Corner(mysql) + Repeat("-", columns[i] + 2) + Border(columns[i + 1..], mysql)
  {
  }

  lemma RowTextNext(row: seq<Cell>, columns: seq<nat>, i: nat, mysql: bool, buffer: string)
    requires |row| == |columns| && i < |row|
    ensures buffer + RowText(row[i..], columns[i..], mysql) ==
            buffer + Padded(row[i], columns[i], mysql) + RowText(row[i + 1..], columns[i + 1..], mysql)
  {
  }

  lemma RowTextEnd(row: seq<Cell>, columns: seq<nat>, mysql: bool)
    requires |row| == |columns|
    ensures RowText(row[|row|..], columns[|row|..], mysql) == Bar(mysql)
  {
  }

  lemma StandsLast(sheet: Sheet, table: seq<seq<string>>, cellWidths: seq<seq<nat>>)
    requires Stands(sheet, table, cellWidths) && sheet != []
    ensures |table| == |cellWidths| == |sheet|
    ensures |table[|sheet| - 1]| == |cellWidths[|sheet| - 1]| == |LastRow(sheet)| && |table[0]| == |sheet[0]|
  {
  }

  lemma StandsStart(sheet: Sheet, table: seq<seq<string>>, cellWidths: seq<seq<nat>>)
    requires Stands(sheet, table, cellWidths)
    ensures |table| == |sheet| && Stands(sheet + [[]], table + [[]], cellWidths + [[]])
  {
  }

  lemma StandsPut(sheet: Sheet, table: seq<seq<string>>, cellWidths: seq<seq<nat>>, value: string)
    requires Stands(sheet, table, cellWidths) && sheet != [] && Width(value).Some?
    ensures PutCell(sheet, value).0 == Done ==>
            var n, w := |sheet| - 1, Width(value).value;
            Stands(PutCell(sheet, value).1, table[n := table[n] + [value]], cellWidths[n := cellWidths[n] + [w]])
  {
  }

  class TextTableBuilder {
    var table: seq<seq<string>>
    var columnWidths: seq<nat>
    var cellWidths: seq<seq<nat>>
    var writeRowIndex: int
    var tableWidth: nat
    const mysqlFormat: bool
    /** The rows of cells that the fields above stand for. */
    ghost var sheet: Sheet

    ghost predicate Valid()
      reads this
    {
      && Shaped(sheet) && Stands(sheet, table, cellWidths)
      && columnWidths == Columns(sheet) && tableWidth == |columnWidths| && writeRowIndex == |sheet| - 1
    }

    constructor (mysqlFormat: bool)
      ensures Valid() && sheet == [] && this.mysqlFormat == mysqlFormat
    {
      this.mysqlFormat := mysqlFormat;
      table, columnWidths, cellWidths, writeRowIndex, tableWidth, sheet := [], [], [], -1, 0, [];
    }

    method StartRow() returns (outcome: Outcome)
      requires Valid()
      modifies this
      ensures Valid() && (outcome, sheet) == Step(old(sheet), Command.StartRow)
    {
      hide Stands, Columns, Widest;
      if sheet != [] { StandsLast(sheet, table, cellWidths); }
      StandsStart(sheet, table, cellWidths);
      if writeRowIndex > 0 && |table[writeRowIndex]| != |table[0]| { return Thrown; }
      ColumnsOfStart(sheet);
      writeRowIndex := writeRowIndex + 1;
      table, cellWidths := table + [[]], cellWidths + [[]];
      sheet := Started(sheet).1;
      outcome := Done;
    }

    method Put(value: string) returns (outcome: Outcome)
      requires Valid() && Allowed(sheet, Command.Put(value))
      modifies this
      ensures Valid() && (outcome, sheet) == Step(old(sheet), Command.Put(value))
    {
      hide Stands, Columns, Widest, Width;
      StandsLast(sheet, table, cellWidths);
      var cellWidth := StrlenIgnoreColors(value);
      StandsPut(sheet, table, cellWidths, value);
      var columnIndex := |table[writeRowIndex]|;
      if writeRowIndex <= 0 {
        ColumnsOfPut(sheet, value);
        columnWidths, tableWidth := columnWidths + [cellWidth], tableWidth + 1;
      } else if columnIndex > tableWidth {
        return Thrown;
      } else if columnIndex == tableWidth {
        return Overrun;
      } else {
        ColumnsOfPut(sheet, value);
        columnWidths := columnWidths[columnIndex := if columnWidths[columnIndex] > cellWidth
                                                    then columnWidths[columnIndex] else cellWidth];
      }
      table := table[writeRowIndex := table[writeRowIndex] + [value]];
      cellWidths := cellWidths[writeRowIndex := cellWidths[writeRowIndex] + [cellWidth]];
      sheet := PutCell(sheet, value).1;
      outcome := Done;
    }

    method Append(value: string)
      requires Valid() && Allowed(sheet, Command.Append(value))
      modifies this
      ensures Valid() && sheet == Step(old(sheet), Command.Append(value)).1
    {
      ColumnsOfAppend(sheet, value);
      var more := StrlenIgnoreColors(value);
      var i := |table[writeRowIndex]| - 1;
      cellWidths := cellWidths[writeRowIndex := cellWidths[writeRowIndex][i := cellWidths[writeRowIndex][i] + more]];
      table := table[writeRowIndex := table[writeRowIndex][i := table[writeRowIndex][i] + value]];
      sheet := Appended(sheet, value).1;
    }

    method BuildBorder() returns (buffer: string)
      requires Valid()
      ensures buffer == Border(Columns(sheet), mysqlFormat) + "\n"
    {
      buffer := "";
      for i := 0 to |columnWidths|
        invariant buffer + Border(columnWidths[i..], mysqlFormat) == Border(columnWidths, mysqlFormat)
      {
        hide Border, Repeat;
        BorderNext(columnWidths, i, mysqlFormat, buffer);
        buffer := buffer + (if mysqlFormat then "+" else "-");
        var dashes := RepeatText("-", columnWidths[i] + 2);
        buffer := buffer + dashes;
      }
      buffer := buffer + (if mysqlFormat then "+" else "-") + "\n";
    }

    /** The row as a line, or None for the exception. */
    method BuildRow(rowNumber: nat) returns (line: Option<string>)
      requires Valid() && rowNumber < |sheet|
      ensures line == if |sheet[rowNumber]| != |sheet[0]| then None
                      else Some(RowText(sheet[rowNumber], Columns(sheet), mysqlFormat) + "\n")
    {
      hide RowText, Repeat, Columns, Widest;
      if |table[rowNumber]| != tableWidth { return None; }
      var buffer := "";
      ghost var row := sheet[rowNumber];
      for i := 0 to tableWidth
        invariant buffer + RowText(row[i..], columnWidths[i..], mysqlFormat) == RowText(row, columnWidths, mysqlFormat)
      {
        RowTextNext(row, columnWidths, i, mysqlFormat, buffer);
        var spaces := RepeatText(" ", columnWidths[i] as int - cellWidths[rowNumber][i] as int + 1);
        buffer := buffer + ((if mysqlFormat then "|" else " ") + " " + table[rowNumber][i] + spaces);
      }
      RowTextEnd(row, columnWidths, mysqlFormat);
      line := Some(buffer + (if mysqlFormat then "|" else " ") + "\n");
    }

    /** The header of the table with its borders. */
    method BuildHead() returns (buffer: string)
      requires Valid() && tableWidth != 0
      ensures buffer == Joined(HeadLines(sheet, mysqlFormat))
    {
      buffer := "";
      if mysqlFormat {
        var top := BuildBorder();
        buffer := buffer + top;
      }
      var header := BuildRow(0);
      var under := BuildBorder();
      buffer := buffer + header.value + under;
      HeadJoined(Border(Columns(sheet), mysqlFormat), RowText(sheet[0], Columns(sheet), mysqlFormat), mysqlFormat);
    }

    /** The rows behind the header, or None for the exception. */
    method BuildRows() returns (text: Option<string>)
      requires Valid() && tableWidth != 0
      ensures text == if Full(sheet) then Some(Joined(RowTexts(sheet[1..], Columns(sheet), mysqlFormat))) else None
    {
      ghost var columns := Columns(sheet);
      var buffer := "";
      for r := 1 to |table|
        invariant forall k :: 0 <= k < r ==> |sheet[k]| == |columns|
        invariant buffer == Joined(RowTexts(sheet[1..r], columns, mysqlFormat))
      {
        hide Columns, RowText, RowTexts, Joined;
        var line := BuildRow(r);
        if line.None? { return None; }
        RowsJoinedMore(sheet, r, columns, mysqlFormat);
        buffer := buffer + line.value;
      }
      assert sheet[1..|table|] == sheet[1..];
      text := Some(buffer);
    }

    method Build() returns (text: Option<string>)
      requires Valid()
      ensures text == Built(sheet, mysqlFormat)
    {
      if tableWidth == 0 { return Some(""); }
      var head := BuildHead();
      var rows := BuildRows();
      if rows.None? { return None; }
      var buffer := head + rows.value;
      ghost var lines := HeadLines(sheet, mysqlFormat) + RowTexts(sheet[1..], Columns(sheet), mysqlFormat);
      JoinedTogether(HeadLines(sheet, mysqlFormat), RowTexts(sheet[1..], Columns(sheet), mysqlFormat));
      ghost var border := Border(Columns(sheet), mysqlFormat);
      if mysqlFormat {
        JoinedMore(lines, border);
        var bottom := BuildBorder();
        buffer := buffer + bottom;
        assert buffer == Joined(lines) + border + "\n";
        assert Lines(sheet, mysqlFormat) == lines + [border];
      } else {
        assert Lines(sheet, mysqlFormat) == lines;
      }
      text := Some(buffer);
    }
  }

  lemma HeadJoined(border: string, first: string, mysql: bool)
    ensures Joined((if mysql then [border] else []) + [first] + [border]) ==
            (if mysql then border + "\n" else "") + (first + "\n") + (border + "\n")
  {
    var before := if mysql then [border] else [];
    JoinedMore(before, first);
    JoinedMore(before + [first], border);
    JoinedMore([], border);
    assert [] + [border] == [border];
    assert Joined(before) == if mysql then border + "\n" else "";
  }

  ghost function HeadLines(t: Sheet, mysql: bool): seq<string>
    requires t != []
  {
    var border := [Border(Columns(t), mysql)];
    (if mysql then border else []) + [RowText(t[0], Columns(t), mysql)] + border
  }

  lemma {:induction false} JoinedTogether(a: seq<string>, b: seq<string>)
    ensures Joined(a + b) == Joined(a) + Joined(b)
  {
    if a == [] {
      assert a + b == b;
    } else {
      assert (a + b)[1..] == a[1..] + b;
      JoinedTogether(a[1..], b);
    }
  }

  ghost predicate Stands(sheet: Sheet, table: seq<seq<string>>, cellWidths: seq<seq<nat>>) {
    && |table| == |cellWidths| == |sheet|
    && (forall r :: 0 <= r < |sheet| ==> |table[r]| == |cellWidths[r]| == |sheet[r]|)
    && (forall r, c :: 0 <= r < |sheet| && 0 <= c < |sheet[r]| ==>
          table[r][c] == sheet[r][c].text && cellWidths[r][c] == sheet[r][c].width)
  }

  lemma {:induction false} JoinedMore(lines: seq<string>, line: string)
    ensures Joined(lines + [line]) == Joined(lines) + line + "\n"
  {
    if lines == [] {
      assert Joined([line]) == line + "\n" + Joined([]);
    } else {
      assert (lines + [line])[1..] == lines[1..] + [line];
      JoinedMore(lines[1..], line);
    }
  }

  lemma RowsJoinedMore(t: Sheet, r: nat, columns: seq<nat>, mysql: bool)
    requires 0 < r < |t| && forall k :: 0 <= k <= r ==> |t[k]| == |columns|
    ensures Joined(RowTexts(t[1..r + 1], columns, mysql)) ==
            Joined(RowTexts(t[1..r], columns, mysql)) + RowText(t[r], columns, mysql) + "\n"
  {
    hide Joined, RowText, RowTexts;
    RowTextsMore(t[1..r], t[r], columns, mysql);
    assert t[1..r] + [t[r]] == t[1..r + 1];
    JoinedMore(RowTexts(t[1..r], columns, mysql), RowText(t[r], columns, mysql));
  }

  lemma {:induction false} RowTextsMore(rows: Sheet, row: seq<Cell>, columns: seq<nat>, mysql: bool)
    requires |row| == |columns| && forall r :: 0 <= r < |rows| ==> |rows[r]| == |columns|
    ensures RowTexts(rows + [row], columns, mysql) == RowTexts(rows, columns, mysql) + [RowText(row, columns, mysql)]
  {
    if rows == [] {
      assert RowTexts([row], columns, mysql) == [RowText(row, columns, mysql)] + RowTexts([], columns, mysql);
    } else {
      assert (rows + [row])[1..] == rows[1..] + [row];
      RowTextsMore(rows[1..], row, columns, mysql);
    }
  }
}
