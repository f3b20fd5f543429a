/**
 * The report writer: a Groff object accumulates the groff/tbl/mm input of
 * one report.  The PrintWriter onto the .mm file is the string `doc`
 * (println appends the line and a newline); the StringBuilder holding the
 * row under construction is the string `row`.
 */
module GroffReport {
  import opened Wrappers
  import opened Strings
  import opened GroffText

  class Groff {
    const pdfName: string
    const mmName: string
    const title: string
    /** The fixed tail of the defaults block; the constructor sets it to
        `PageSetup`. */
    const pageSetup: string
    var doc: string
    var atTop: bool
    var autoPageHeader: bool
    var footerLeft: string
    var footerRight: string
    var numberOfColumns: nat
    var currentColumn: nat
    var currentRow: nat
    var row: string
    var inTitle: bool
    var inTable: bool
    var runDate: Option<string>
    var pageTitleLines: seq<string>
    var grayEveryOtherLineFlg: bool
    /** The cells of the pending row, in order. */
    ghost var cells: seq<string>
    /** How many times the defaults block and the page header were written. */
    ghost var defaultsWritten: nat
    ghost var headersWritten: nat

    ghost predicate Valid()
      reads this`currentColumn, this`numberOfColumns, this`cells, this`row, this`inTable,
            this`defaultsWritten, this`atTop, this`headersWritten, this`autoPageHeader
    {
      RowValid() && PrologueValid()
    }

    /** The pending row holds `currentColumn` cells joined by the delimiter,
        never more cells than the table has columns (one before any table),
        and an open table has at least one column. */
    ghost predicate RowValid()
      reads this`currentColumn, this`numberOfColumns, this`cells, this`row, this`inTable
    {
      && currentColumn <= (if numberOfColumns == 0 then 1 else numberOfColumns)
      && |cells| == currentColumn
      && row == Join(cells, [Delim])
      && (inTable ==> numberOfColumns >= 1)
    }

    /** The defaults block is written exactly once, from the first line on;
        the page header at most once, and never while it is still due. */
    ghost predicate PrologueValid()
      reads this`defaultsWritten, this`atTop, this`headersWritten, this`autoPageHeader
    {
      && defaultsWritten == (if atTop then 0 else 1)
      && headersWritten <= 1
      && (autoPageHeader ==> headersWritten == 0)
    }

    /** The next row written gets the gray marker. */
    predicate Shaded()
      reads this`grayEveryOtherLineFlg, this`inTitle, this`currentRow
    {
      grayEveryOtherLineFlg && !inTitle && currentRow % 2 == 1
    }

    /** `currentRow` once the next row is written: it counts only rows that
        could be shaded. */
    function RowAfterEmit(): nat
      reads this`grayEveryOtherLineFlg, this`inTitle, this`currentRow
    {
      if grayEveryOtherLineFlg && !inTitle then currentRow + 1 else currentRow
    }

    /** The defaults block, while it is still to be written. */
    function DefaultsDue(): string
      reads this`atTop, this`footerLeft, this`footerRight
    {
      if atTop then NoPageHeader + FooterMacro(footerLeft, footerRight) + pageSetup else ""
    }

    /** The page header, while it is still to be written. */
    function HeaderDue(clock: string): string
      reads this`autoPageHeader, this`runDate, this`pageTitleLines
    {
      if autoPageHeader then PageHeaderText(title, runDate, clock, pageTitleLines) else ""
    }

    /** A new report writing to the .mm file beside `pdfName`. */
    constructor(pdfName: string, title: string)
      ensures Valid()
      ensures this.pdfName == pdfName && this.title == title && mmName == MmName(pdfName)
      ensures pageSetup == PageSetup
      ensures doc == "" && atTop && autoPageHeader
      ensures footerLeft == "" && footerRight == ""
      ensures numberOfColumns == 0 && currentColumn == 0 && currentRow == 0 && row == ""
      ensures !inTitle && !inTable && grayEveryOtherLineFlg
      ensures runDate == None && pageTitleLines == []
    {
      this.pdfName := pdfName;
      mmName := MmName(pdfName);
      this.title := title;
      pageSetup := PageSetup;
      doc := "";
      atTop := true;
      autoPageHeader := true;
      footerLeft := "";
      footerRight := "";
      numberOfColumns := 0;
      currentColumn := 0;
      currentRow := 0;
      row := "";
      inTitle := false;
      inTable := false;
      runDate := None;
      pageTitleLines := [];
      grayEveryOtherLineFlg := true;
      cells := [];
      defaultsWritten := 0;
      headersWritten := 0;
    }

    /** Switches the automatic page header off before it is written, or
        removes it once it has been. */
    method NoAutoPageHeader()
      requires Valid()
      modifies this`autoPageHeader, this`doc
      ensures Valid()
      ensures !autoPageHeader
      ensures old(autoPageHeader) ==> doc == old(doc)
      ensures !old(autoPageHeader) ==> doc == old(doc) + ".rm TP\n"
    {
      if autoPageHeader {
        autoPageHeader := false;
      } else {
        doc := doc + ".rm TP\n";
      }
    }

    /** Sets the run date; an empty one suppresses the date line. */
    method SetRuntime(rt: Option<string>)
      modifies this`runDate
      ensures runDate == rt
    {
      runDate := rt;
    }

    method AddPageTitleLine(line: string)
      modifies this`pageTitleLines
      ensures pageTitleLines == old(pageTitleLines) + [line]
    {
      pageTitleLines := pageTitleLines + [line];
    }

    /** A null footer part becomes empty. */
    method SetFooter(left: Option<string>, right: Option<string>)
      modifies this`footerLeft, this`footerRight
      ensures footerLeft == left.GetOr("") && footerRight == right.GetOr("")
    {
      footerLeft := left.GetOr("");
      footerRight := right.GetOr("");
    }

    method SetDefaults()
      requires atTop
      modifies this`doc
      ensures doc == old(doc) + DefaultsDue()
    {
      doc := doc + (NoPageHeader + FooterMacro(footerLeft, footerRight) + pageSetup);
    }

    /** Defines the `TP` macro: the run date, then the title and every added
        title line centered. */
    method WritePageHeader(clock: string)
      modifies this`doc
      ensures doc == old(doc) + PageHeaderText(title, runDate, clock, pageTitleLines)
    {
      var head := PageHeaderOpen(runDate, clock, 1 + |pageTitleLines|);
      var lines := CenteredLines();
      assert |[title] + pageTitleLines| == 1 + |pageTitleLines|;
      doc := doc + (head + lines + HeaderEnd);
    }

    /** The title and the added title lines, one per line. */
    method CenteredLines() returns (lines: string)
      ensures lines == Lines([title] + pageTitleLines)
    {
      ghost var centered := [title] + pageTitleLines;
      lines := title + "\n";
      assert centered[..1] == [title];
      assert lines == Lines(centered[..1]);
      for i := 0 to |pageTitleLines|
        invariant lines == Lines(centered[..i + 1])
      {
        LinesPrefix(centered, i + 1);
        lines := lines + pageTitleLines[i] + "\n";
      }
      assert centered[..|pageTitleLines| + 1] == centered;
    }

    /** Writes a line (none for null), preceded by the defaults block the
        first time and by the page header while it is due. */
    method Out(str: Option<string>, clock: string)
      requires PrologueValid()
      modifies this`doc, this`atTop, this`autoPageHeader, this`defaultsWritten, this`headersWritten
      ensures PrologueValid()
      ensures old(atTop) || old(autoPageHeader) ==>
                doc == old(doc) + old(DefaultsDue()) + old(HeaderDue(clock)) + LineText(str)
      ensures !old(atTop) && !old(autoPageHeader) ==> doc == old(doc) + LineText(str)
      ensures !atTop && !autoPageHeader
      ensures headersWritten == old(headersWritten) + (if old(autoPageHeader) then 1 else 0)
    {
      ghost var defaults := DefaultsDue();
      ghost var header := HeaderDue(clock);
      if atTop {
        SetDefaults();
        atTop := false;
        defaultsWritten := defaultsWritten + 1;
      } else {
        assert doc + defaults == doc;
      }
      ghost var afterDefaults := doc;
      if autoPageHeader {
        WritePageHeader(clock);
        autoPageHeader := false;
        headersWritten := headersWritten + 1;
      } else {
        assert doc + header == doc;
      }
      assert doc == afterDefaults + header;
      doc := doc + LineText(str);
    }

    method OutBold(txt: string, clock: string)
      requires PrologueValid()
      modifies this`doc, this`atTop, this`autoPageHeader, this`defaultsWritten, this`headersWritten
      ensures PrologueValid()
      ensures doc == old(doc) + old(DefaultsDue()) + old(HeaderDue(clock)) + LineText(Some(".B \"" + txt + "\""))
      ensures !atTop && !autoPageHeader
    {
      Out(Some(".B \"" + txt + "\""), clock);
    }

    /** Opens a table: the column count comes from the format, the format is
        written normalized, and the title rows follow. */
    method StartTable(colFmt: string, clock: string)
      requires Valid()
      modifies this`doc, this`atTop, this`autoPageHeader, this`defaultsWritten, this`headersWritten,
               this`grayEveryOtherLineFlg, this`numberOfColumns, this`inTitle, this`inTable,
               this`currentColumn, this`currentRow, this`row, this`cells
      ensures Valid()
      ensures numberOfColumns == ColumnCount(colFmt)
      ensures doc == old(doc) + old(DefaultsDue()) + old(HeaderDue(clock))
                     + LineText(Some(".fi")) + LineText(Some(".ad l")) + LineText(Some(".TS H"))
                     + LineText(Some("center tab(" + [Delim] + ");")) + LineText(Some(TableFormat(colFmt)))
      ensures inTitle && inTable && grayEveryOtherLineFlg
      ensures currentColumn == 0 && currentRow == 0 && row == "" && cells == []
      ensures !atTop && !autoPageHeader
    {
      var fmt := TableFormat(colFmt);
      OpenTable(fmt, ColumnCount(colFmt), clock);
      // `startTable` sets the flag first; nothing on the way reads it, so
      // setting it last reaches the same state.
      grayEveryOtherLineFlg := true;
    }

    /** The rest of `StartTable` once the format is normalized and its
        columns counted. */
    method OpenTable(fmt: string, columns: nat, clock: string)
      requires Valid() && columns >= 1
      modifies this`doc, this`atTop, this`autoPageHeader, this`defaultsWritten, this`headersWritten,
               this`numberOfColumns, this`inTitle, this`inTable,
               this`currentColumn, this`currentRow, this`row, this`cells
      ensures Valid()
      ensures numberOfColumns == columns
      ensures doc == old(doc) + old(DefaultsDue()) + old(HeaderDue(clock))
                     + LineText(Some(".fi")) + LineText(Some(".ad l")) + LineText(Some(".TS H"))
                     + LineText(Some("center tab(" + [Delim] + ");")) + LineText(Some(fmt))
      ensures inTitle && inTable
      ensures currentColumn == 0 && currentRow == 0 && row == "" && cells == []
      ensures !atTop && !autoPageHeader
    {
      WriteTablePreamble(fmt, clock);
      EnterTitleRows(columns);
    }

    /** The table state `startTable` leaves: the column count, title mode
        in an open table, an empty pending row and the row count reset. */
    method EnterTitleRows(columns: nat)
      requires columns >= 1
      modifies this`numberOfColumns, this`inTitle, this`inTable, this`currentColumn, this`currentRow,
               this`row, this`cells
      ensures RowValid()
      ensures numberOfColumns == columns
      ensures inTitle && inTable
      ensures currentColumn == 0 && currentRow == 0 && row == "" && cells == []
    {
      numberOfColumns := columns;
      inTitle := true;
      inTable := true;
      currentColumn := 0;
      currentRow := 0;
      row := "";
      cells := [];
    }

    /** The five lines `startTable` writes through `out`: fill and left
        adjustment, the table start, its options and its format. */
    method WriteTablePreamble(fmt: string, clock: string)
      requires PrologueValid()
      modifies this`doc, this`atTop, this`autoPageHeader, this`defaultsWritten, this`headersWritten
      ensures PrologueValid()
      ensures doc == old(doc) + old(DefaultsDue()) + old(HeaderDue(clock))
                     + LineText(Some(".fi")) + LineText(Some(".ad l")) + LineText(Some(".TS H"))
                     + LineText(Some("center tab(" + [Delim] + ");")) + LineText(Some(fmt))
      ensures !atTop && !autoPageHeader
    {
      Out(Some(".fi"), clock);
      Out(Some(".ad l"), clock);
      Out(Some(".TS H"), clock);
      Out(Some("center tab(" + [Delim] + ");"), clock);
      Out(Some(fmt), clock);
    }

    /** Writes the pending row once it holds all its columns. */
    method Flush()
      requires Valid()
      modifies this`doc, this`currentRow, this`currentColumn, this`row, this`cells
      ensures Valid()
      ensures old(currentColumn) >= numberOfColumns ==>
                (&& doc == old(doc) + RowLine(old(row), old(Shaded()))
                 && currentRow == old(RowAfterEmit())
                 && currentColumn == 0 && row == "" && cells == [])
      ensures old(currentColumn) < numberOfColumns ==>
                (&& doc == old(doc) && currentRow == old(currentRow)
                 && currentColumn == old(currentColumn) && row == old(row) && cells == old(cells))
    {
      if currentColumn >= numberOfColumns {
        var shaded := false;
        if grayEveryOtherLineFlg && !inTitle {
          shaded := currentRow % 2 == 1;
          currentRow := currentRow + 1;
        }
        doc := doc + RowLine(row, shaded);
        currentColumn := 0;
        row := "";
        cells := [];
      }
    }

    /** Appends `cell` to the pending row, after a delimiter unless it is the
        first cell. */
    method AppendCell(cell: string)
      requires Valid()
      requires currentColumn < (if numberOfColumns == 0 then 1 else numberOfColumns)
      modifies this`currentColumn, this`row, this`cells
      ensures Valid()
      ensures cells == old(cells) + [cell]
      ensures row == old(row) + (if old(currentColumn) != 0 then [Delim] else "") + cell
    {
      JoinSnoc(cells, cell, [Delim]);
      if currentColumn != 0 {
        row := row + [Delim];
      }
      currentColumn := currentColumn + 1;
      row := row + cell;
      cells := cells + [cell];
    }

    /** Adds a cell (empty for null); the full row before it, if any, is
        written first. */
    method Column(col: Option<string>)
      requires Valid()
      modifies this`doc, this`currentRow, this`currentColumn, this`row, this`cells
      ensures Valid()
      ensures 1 <= currentColumn && (numberOfColumns >= 1 ==> currentColumn <= numberOfColumns)
      ensures old(currentColumn) >= numberOfColumns ==>
                (&& doc == old(doc) + RowLine(old(row), old(Shaded()))
                 && currentRow == old(RowAfterEmit())
                 && cells == [col.GetOr("")] && row == col.GetOr(""))
      ensures old(currentColumn) < numberOfColumns ==>
                (&& doc == old(doc) && currentRow == old(currentRow)
                 && cells == old(cells) + [col.GetOr("")]
                 && row == old(row) + (if old(currentColumn) != 0 then [Delim] else "") + col.GetOr(""))
    {
      Flush();
      AppendCell(col.GetOr(""));
    }

    /** Adds a cell that may wrap; gray rows are switched off for the rest
        of the table, so the row written first is never shaded. */
    method ColumnWrap(col: Option<string>)
      requires Valid()
      modifies this`grayEveryOtherLineFlg, this`doc, this`currentRow, this`currentColumn, this`row, this`cells
      ensures Valid()
      ensures !grayEveryOtherLineFlg
      ensures 1 <= currentColumn && (numberOfColumns >= 1 ==> currentColumn <= numberOfColumns)
      ensures currentRow == old(currentRow)
      ensures old(currentColumn) >= numberOfColumns ==>
                (&& doc == old(doc) + RowLine(old(row), false)
                 && cells == [WrappedCell(col)] && row == WrappedCell(col))
      ensures old(currentColumn) < numberOfColumns ==>
                (&& doc == old(doc)
                 && cells == old(cells) + [WrappedCell(col)]
                 && row == old(row) + (if old(currentColumn) != 0 then [Delim] else "") + WrappedCell(col))
    {
      grayEveryOtherLineFlg := false;
      Flush();
      AppendCell(WrappedCell(col));
    }

    /** The number of empty cells that complete a row of `filled` cells. */
    function Padding(filled: nat): (n: nat)
      reads this`numberOfColumns
      ensures filled + n == numberOfColumns || (n == 0 && filled >= numberOfColumns)
    {
      if filled < numberOfColumns then numberOfColumns - filled else 0
    }

    /** Ends a row early: pads it with empty cells to the column count and
        writes it; nothing happens when no cell is pending. */
    method EndRow()
      requires Valid()
      modifies this`doc, this`currentRow, this`currentColumn, this`row, this`cells
      ensures Valid()
      ensures old(currentColumn) == 0 ==>
                (&& doc == old(doc) && currentRow == old(currentRow)
                 && currentColumn == 0 && row == old(row) && cells == old(cells))
      ensures old(currentColumn) != 0 ==>
                (&& doc == old(doc) + RowLine(Join(old(cells) + Blanks(Padding(old(currentColumn))), [Delim]),
                                              old(Shaded()))
                 && currentRow == old(RowAfterEmit())
                 && currentColumn == 0 && row == "" && cells == [])
    {
      if currentColumn == 0 {
        return;
      }
      PadRow();
      Flush();
    }

    /** Fills the pending row with empty cells up to the column count. */
    method PadRow()
      requires Valid()
      modifies this`currentColumn, this`row, this`cells
      ensures Valid()
      ensures currentColumn >= numberOfColumns
      ensures cells == old(cells) + Blanks(Padding(old(currentColumn)))
      ensures numberOfColumns >= 1 && (forall i :: 0 <= i < |old(cells)| ==> Delim !in old(cells)[i]) ==>
                Occurrences(row, Delim) == numberOfColumns - 1
    {
      ghost var filled := currentColumn;
      while currentColumn < numberOfColumns
        invariant Valid()
        invariant filled <= currentColumn
        invariant currentColumn - filled <= Padding(filled)
        invariant currentColumn < numberOfColumns ==> currentColumn - filled < Padding(filled)
        invariant cells == old(cells) + Blanks(currentColumn - filled)
        decreases numberOfColumns - currentColumn
      {
        assert Blanks(currentColumn + 1 - filled) == Blanks(currentColumn - filled) + [""];
        AppendCell("");
      }
      assert currentColumn - filled == Padding(filled);
      if numberOfColumns >= 1 && forall i :: 0 <= i < |old(cells)| ==> Delim !in old(cells)[i] {
        PaddedRowDelimiters(old(cells), numberOfColumns);
      }
    }

    /** Ends the title rows: writes the pending row, an underline cell per
        column, and `.TH`. */
    method EndTitle()
      requires Valid()
      modifies this`doc, this`row, this`cells, this`currentColumn, this`inTitle
      ensures Valid()
      ensures doc == old(doc) + old(row) + "\n" + TitleRule(numberOfColumns) + "\n" + ".TH\n"
      ensures !inTitle && currentColumn == 0 && row == "" && cells == []
    {
      doc := doc + row + "\n";
      row := "";
      cells := [];
      currentColumn := 0;
      var rule := "";
      for i := 0 to numberOfColumns
        invariant rule == TitleRule(i)
        modifies {}
      {
        TitleRuleSnoc(i);
        if i != 0 {
          rule := rule + [Delim];
        }
        rule := rule + "\\_";
      }
      doc := doc + rule + "\n";
      doc := doc + ".TH\n";
      inTitle := false;
    }

    /** Takes the pending row out as `endTable` writes it, counting it as
        an emitted row when it holds any text. */
    method TakePendingRow() returns (pending: string)
      modifies this`row, this`currentRow
      ensures pending == if old(row) != "" then PendingRow(old(row), old(Shaded())) else ""
      ensures row == "" || row == old(row)
      ensures old(row) != "" ==> row == "" && currentRow == old(RowAfterEmit())
      ensures old(row) == "" ==> currentRow == old(currentRow)
    {
      pending := "";
      if |row| > 0 {
        var shaded := false;
        if grayEveryOtherLineFlg && !inTitle {
          shaded := currentRow % 2 == 1;
          currentRow := currentRow + 1;
        }
        pending := PendingRow(row, shaded);
        row := "";
      }
    }

    /** Closes an open table: writes the pending row (if it holds any text),
        `.TE` and `.nf`, and resets the row state; title mode ends in any
        case. */
    method EndTable()
      requires Valid()
      modifies this`doc, this`row, this`cells, this`currentColumn, this`currentRow, this`inTable, this`inTitle
      ensures Valid()
      ensures !inTitle && !inTable
      ensures old(inTable) ==>
                (&& doc == old(doc) + (if old(row) != "" then PendingRow(old(row), old(Shaded())) else "")
                        + ".TE\n" + ".nf\n"
                 && currentColumn == 0 && currentRow == 0 && row == "" && cells == [])
      ensures !old(inTable) ==>
                (&& doc == old(doc) && currentColumn == old(currentColumn)
                 && currentRow == old(currentRow) && row == old(row) && cells == old(cells))
    {
      if inTable {
        var pending := TakePendingRow();
        doc := doc + pending + ".TE\n" + ".nf\n";
        inTable := false;
        currentColumn := 0;
        currentRow := 0;
        cells := [];
      }
      inTitle := false;
    }
  }
}
