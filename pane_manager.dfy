/** `ExcelPaneManager`: the frozen rows and columns of a sheet, read from the
    split counts of its pane, their freeze-pane cell text, and the check of
    the frozen rows against a limit. */
module PaneManager {
  import opened Fallible
  import opened Text
  import opened CellRefs

  /** The pane of a sheet view. The split counts are floating-point numbers,
      modelled as reals; `None` is an unset attribute. */
  datatype Pane = Pane(state: string, xSplit: Option<real>, ySplit: Option<real>, topLeftCell: Option<string>)

  datatype SheetView = SheetView(pane: Option<Pane>)

  /** The part of a worksheet the pane helpers look at; a missing sheet view
      makes the attribute access raise. */
  datatype Sheet = Sheet(sheetView: Option<SheetView>)

  /** Frozen rows and columns, the pair `get_frozen_panes` returns. */
  datatype Frozen = Frozen(rows: int, cols: int)

  /** Python's `int(x)` on a float: truncation toward zero. */
  function Trunc(x: real): (n: int)
    ensures x >= 0.0 ==> n >= 0 && n as real <= x < n as real + 1.0
    ensures x < 0.0 ==> n <= 0 && n as real - 1.0 < x <= n as real
  {
    if x >= 0.0 then x.Floor else -((-x).Floor)
  }

  /** `int(v) if v else 0`: unset and zero split counts read as 0. */
  function SplitCount(v: Option<real>): int {
    if v.None? || v.value == 0.0 then 0 else Trunc(v.value)
  }

  predicate IsFrozenState(state: string) {
    state == "frozen" || state == "frozenSplit"
  }

  /** `get_frozen_panes`: the counts of a frozen pane, and (0, 0) when there is
      no pane, the pane is not frozen, or reading it raises. */
  function GetFrozenPanes(sheet: Sheet): (f: Frozen)
    ensures f != Frozen(0, 0) ==>
      sheet.sheetView.Some? && sheet.sheetView.value.pane.Some? && IsFrozenState(sheet.sheetView.value.pane.value.state)
  {
    match sheet.sheetView
    case None => Frozen(0, 0)
    case Some(view) =>
      match view.pane
      case None => Frozen(0, 0)
      case Some(pane) =>
        if !IsFrozenState(pane.state) then Frozen(0, 0)
        else Frozen(SplitCount(pane.ySplit), SplitCount(pane.xSplit))
  }

  /** Without a frozen pane there is nothing frozen; a split pane
      (`state = "split"`) is ignored. */
  lemma NoFrozenPane(sheet: Sheet)
    requires sheet.sheetView.None? || sheet.sheetView.value.pane.None?
      || !IsFrozenState(sheet.sheetView.value.pane.value.state)
    ensures GetFrozenPanes(sheet) == Frozen(0, 0)
  {
  }

  /** A frozen pane freezes the whole parts of its split counts: rows from
      `ySplit`, columns from `xSplit`, and none for an unset count. */
  lemma FrozenFromSplits(sheet: Sheet)
    requires sheet.sheetView.Some? && sheet.sheetView.value.pane.Some?
    requires IsFrozenState(sheet.sheetView.value.pane.value.state)
    ensures var pane := sheet.sheetView.value.pane.value;
      var f := GetFrozenPanes(sheet);
      && (pane.ySplit.None? ==> f.rows == 0)
      && (pane.xSplit.None? ==> f.cols == 0)
      && (pane.ySplit.Some? && pane.ySplit.value >= 0.0 ==>
            f.rows >= 0 && f.rows as real <= pane.ySplit.value < f.rows as real + 1.0)
      && (pane.xSplit.Some? && pane.xSplit.value >= 0.0 ==>
            f.cols >= 0 && f.cols as real <= pane.xSplit.value < f.cols as real + 1.0)
  {
  }

  /** The counts do not depend on the scroll position (`topLeftCell`). */
  lemma FrozenIgnoresTopLeft(view: SheetView, cell: Option<string>)
    requires view.pane.Some?
    ensures var p := view.pane.value;
      GetFrozenPanes(Sheet(Some(SheetView(Some(Pane(p.state, p.xSplit, p.ySplit, cell))))))
        == GetFrozenPanes(Sheet(Some(view)))
  {
  }

  /** `format_freeze_panes`: the first cell below and right of the frozen
      block, or `None` where `get_column_letter` raises. */
  function FormatFreezePanes(frozenRows: int, frozenCols: int): (r: Option<string>)
    ensures r.Some? <==> 0 <= frozenCols < MaxColumn
  {
    match GetColumnLetter(frozenCols + 1)
    case None => None
    case Some(letters) => Some(letters + IntToString(frozenRows + 1))
  }

  /** The freeze-pane text names the cell in row `frozenRows + 1` and column
      `frozenCols + 1`. */
  lemma FormatFreezePanesCell(frozenRows: int, frozenCols: int)
    requires frozenRows >= 0 && 0 <= frozenCols < MaxColumn
    ensures FormatFreezePanes(frozenRows, frozenCols) == Some(CoordString(frozenCols + 1, frozenRows + 1))
    ensures CoordinateFromString(FormatFreezePanes(frozenRows, frozenCols).value)
      == Some(Coord(ColumnLetter(frozenCols + 1), frozenRows + 1))
    ensures ColIdx(Coord(ColumnLetter(frozenCols + 1), frozenRows + 1)) == frozenCols + 1
  {
    ParseCoordString(frozenCols + 1, frozenRows + 1);
  }

  /** The freeze-pane text of a sheet's frozen counts reads back as those
      counts, each one more. */
  lemma FormatOfFrozen(sheet: Sheet)
    requires GetFrozenPanes(sheet).rows >= 0
    requires 0 <= GetFrozenPanes(sheet).cols < MaxColumn
    ensures var f := GetFrozenPanes(sheet);
      var c := CoordinateFromString(FormatFreezePanes(f.rows, f.cols).value);
      c.Some? && c.value.row == f.rows + 1 && ColIdx(c.value) == f.cols + 1
  {
    var f := GetFrozenPanes(sheet);
    FormatFreezePanesCell(f.rows, f.cols);
  }

  /** Worked case: nothing frozen puts the freeze at "A1". */
  lemma FormatNoFreeze()
    ensures FormatFreezePanes(0, 0) == Some("A1")
  {
    FormatFreezePanesCell(0, 0);
    assert LetterOf(1) == 'A' && DigitChar(1) == '1';
    assert CoordString(1, 1) == [LetterOf(1)] + [DigitChar(1)];
    assert CoordString(1, 1) == "A1";
  }

  /** Worked case: two rows and one column frozen put the freeze at "B3". */
  lemma FormatTwoRowsOneColumn()
    ensures FormatFreezePanes(2, 1) == Some("B3")
  {
    FormatFreezePanesCell(2, 1);
    assert LetterOf(2) == 'B' && DigitChar(3) == '3';
    assert CoordString(2, 3) == [LetterOf(2)] + [DigitChar(3)];
    assert CoordString(2, 3) == "B3";
  }

  /** Worked case: 100 rows and 25 columns frozen put the freeze at "Z101". */
  lemma FormatHundredRows()
    ensures FormatFreezePanes(100, 25) == Some("Z101")
  {
    FormatFreezePanesCell(100, 25);
    assert LetterOf(26) == 'Z' && DigitChar(1) == '1' && DigitChar(0) == '0';
    assert NatToString(10) == [DigitChar(1)] + [DigitChar(0)];
    assert NatToString(101) == NatToString(10) + [DigitChar(1)];
    assert CoordString(26, 101) == [LetterOf(26)] + NatToString(101);
    assert CoordString(26, 101) == "Z101";
  }

  /** The pair `validate_frozen_rows` returns. */
  datatype Validated = Validated(isValid: bool, rows: int)

  /** `validate_frozen_rows`: negative counts become 0, counts above the limit
      are refused as 0, others pass. The check fails only for a count above
      the limit, and the count kept is either the given one or 0. */
  function ValidateFrozenRows(frozenRows: int, maxLimit: int): (v: Validated)
    ensures !v.isValid <==> 0 <= frozenRows && maxLimit < frozenRows
    ensures v.rows >= 0 && (v.rows == frozenRows || v.rows == 0)
  {
    if frozenRows < 0 then Validated(true, 0)
    else if frozenRows > maxLimit then Validated(false, 0)
    else Validated(true, frozenRows)
  }

  /** The three outcomes, for every limit: a negative count passes as 0, a
      count above the limit is refused as 0, and any other count passes
      unchanged. */
  lemma ValidateFrozenRowsCases(frozenRows: int, maxLimit: int)
    ensures frozenRows < 0 ==> ValidateFrozenRows(frozenRows, maxLimit) == Validated(true, 0)
    ensures 0 <= frozenRows && maxLimit < frozenRows ==> ValidateFrozenRows(frozenRows, maxLimit) == Validated(false, 0)
    ensures 0 <= frozenRows <= maxLimit ==> ValidateFrozenRows(frozenRows, maxLimit) == Validated(true, frozenRows)
  {
  }

  /** For a non-negative limit the validated count lies between 0 and the
      limit, the check fails exactly for counts above the limit, a negative
      count passes as 0, and a count that passes and is not negative is kept. */
  lemma ValidatedWithinLimit(frozenRows: int, maxLimit: int)
    requires maxLimit >= 0
    ensures var v := ValidateFrozenRows(frozenRows, maxLimit);
      && 0 <= v.rows <= maxLimit
      && (!v.isValid <==> frozenRows > maxLimit)
      && (frozenRows < 0 ==> v == Validated(true, 0))
      && (v.isValid && frozenRows >= 0 ==> v.rows == frozenRows)
      && (!v.isValid ==> v.rows == 0)
  {
  }

  /** Worked cases with a limit of 100: a negative count, a count above the
      limit, a count at the limit, a count below it and no frozen rows. */
  lemma ValidateFrozenRowsExamples()
    ensures ValidateFrozenRows(-1, 100) == Validated(true, 0)
    ensures ValidateFrozenRows(150, 100) == Validated(false, 0)
    ensures ValidateFrozenRows(100, 100) == Validated(true, 100)
    ensures ValidateFrozenRows(50, 100) == Validated(true, 50)
    ensures ValidateFrozenRows(0, 100) == Validated(true, 0)
  {
  }
}
