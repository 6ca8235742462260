/** `ExcelRangeCalculator`: header rows for frozen panes, the bounding box of
    two ranges, expansion of a cell, column or row to row 1 or column A, the
    size of a range, and the normalisation of bare column specs. Every helper
    is a pure function of its arguments; where the Python code raises, the
    model returns `Err`. */
module RangeCalculator {
  import opened Fallible
  import opened Text
  import opened CellRefs

  /** What the range helpers raise. */
  datatype RangeError =
    | Unpack           // `a, b = s.split(":")` without exactly one colon: ValueError
    | BadCoordinate    // `coordinate_from_string` refused a cell: CellCoordinatesException
    | BadColumn        // `column_index_from_string` refused the letters: ValueError
    | ReversedColumns  // the ValueError `normalize_column_range` raises itself

  /** The two ends of a range, `split(":")` unpacked or the same cell twice. */
  function Ends(s: string): (r: Result<(string, string), RangeError>)
    ensures r.Ok? <==> RangeEnds(s).Some?
    ensures r.Ok? ==> r.value == RangeEnds(s).value
    ensures r.Err? ==> r.error == Unpack
  {
    match RangeEnds(s)
    case Some(e) => Ok(e)
    case None => Err(Unpack)
  }

  /** `coordinate_from_string(s)`, raising on anything that is not a cell. */
  function Cell(s: string): (r: Result<Coord, RangeError>)
    ensures r.Ok? <==> CoordinateFromString(s).Some?
    ensures r.Ok? ==> r.value == CoordinateFromString(s).value
    ensures r.Ok? ==> ValidColumnName(r.value.column) && r.value.row >= 1
    ensures r.Err? ==> r.error == BadCoordinate
  {
    match CoordinateFromString(s)
    case Some(c) => Ok(c)
    case None => Err(BadCoordinate)
  }

  /** The start and end cells of a range: `split(":")` (or the same cell
      twice), then `coordinate_from_string` on both ends. */
  function Parsed(s: string): (r: Result<(Coord, Coord), RangeError>)
    ensures r.Ok? ==> ValidColumnName(r.value.0.column) && ValidColumnName(r.value.1.column)
    ensures r.Ok? ==> r.value.0.row >= 1 && r.value.1.row >= 1
  {
    var ends :- Ends(s);
    var start :- Cell(ends.0);
    var end :- Cell(ends.1);
    Ok((start, end))
  }

  /** What unpacking means: a text without a colon is the same cell twice, and
      a text with a colon unpacks exactly when no second colon follows the
      first, into the texts before and after that colon. */
  lemma EndsSplit(s: string)
    ensures ':' !in s ==> Ends(s) == Ok((s, s))
    ensures ':' in s ==> (Ends(s).Ok? <==> ':' !in SplitFirst(s, ':').1)
    ensures ':' in s && Ends(s).Ok? ==> Ends(s) == Ok(SplitFirst(s, ':'))
  {
    if ':' in s {
      var (a, b) := SplitFirst(s, ':');
      SplitCons(a, ':', b);
    }
  }

  /** Worked case: a range with two colons does not unpack. */
  lemma EndsTwoColons()
    ensures Ends("A1:B2:C3") == Err(Unpack)
  {
    var s := "A1:B2:C3";
    assert s == "A1" + [':'] + "B2:C3";
    SplitFirstAt("A1", ':', "B2:C3");
    assert "B2:C3"[2] == ':';
    EndsSplit(s);
  }

  lemma ParsedBounds(s: string)
    ensures Parsed(s).Ok? <==> RangeBounds(s).Some?
    ensures Parsed(s).Ok? ==>
      var (a, b) := Parsed(s).value;
      RangeBounds(s) == Some(Rect(a.row, b.row, ColIdx(a), ColIdx(b)))
  {
  }

  /** A block whose first row and column do not come after its last. */
  predicate Ordered(x: Rect) {
    x.minRow <= x.maxRow && x.minCol <= x.maxCol
  }

  /** `outer` contains every cell of `inner`. */
  predicate Covers(outer: Rect, inner: Rect) {
    outer.minRow <= inner.minRow && inner.maxRow <= outer.maxRow
    && outer.minCol <= inner.minCol && inner.maxCol <= outer.maxCol
  }

  /** The smallest block containing both blocks. */
  function Hull(x: Rect, y: Rect): (h: Rect)
    ensures Ordered(x) && Ordered(y) ==> Covers(h, x) && Covers(h, y)
    ensures forall z: Rect :: Covers(z, x) && Covers(z, y) ==> Covers(z, h)
  {
    Rect(Min(x.minRow, y.minRow), Max(x.maxRow, y.maxRow),
         Min(x.minCol, y.minCol), Max(x.maxCol, y.maxCol))
  }

  /** Two cells, each written as letters and a row, joined by a colon. */
  function TwoCells(l1: string, r1: int, l2: string, r2: int): string {
    l1 + IntToString(r1) + ":" + l2 + IntToString(r2)
  }

  lemma TwoCellsBounds(l1: string, r1: int, l2: string, r2: int)
    requires ValidColumnName(l1) && ValidColumnName(l2) && r1 >= 1 && r2 >= 1
    ensures RangeEnds(TwoCells(l1, r1, l2, r2)) == Some((l1 + NatToString(r1), l2 + NatToString(r2)))
    ensures RangeBounds(TwoCells(l1, r1, l2, r2))
      == Some(Rect(r1, r2, ColIdx(Coord(l1, r1)), ColIdx(Coord(l2, r2))))
  {
    var a := l1 + NatToString(r1);
    var b := l2 + NatToString(r2);
    assert TwoCells(l1, r1, l2, r2) == a + ":" + b;
    NoColonInLettersRow(l1, r1);
    NoColonInLettersRow(l2, r2);
    RangeEndsOfJoin(a, b);
    BoundsOfTwoCells(l1, r1, l2, r2);
  }

  // ---------------------------------------------------------------- calculate_header_range

  /** The frozen header rows that `cellRange` lacks, or `None` when there are
      no frozen rows or the range already starts at row 1. */
  function HeaderRange(cellRange: string, frozenRows: int): (r: Result<Option<string>, RangeError>)
    ensures frozenRows == 0 ==> r == Ok(None)
  {
    if frozenRows == 0 then Ok(None)
    else
      var cells :- Parsed(cellRange);
      Ok(HeaderOfCells(cells.0, cells.1, frozenRows))
  }

  /** The header of a range from `start` to `end`, once both cells are read. */
  function HeaderOfCells(start: Coord, end: Coord, frozenRows: int): (h: Option<string>)
    ensures h.None? <==> start.row == 1
  {
    if start.row == 1 then None
    else Some(TwoCells(start.column, 1, end.column, HeaderLastRow(start.row, frozenRows)))
  }

  /** The last header row: the row above the range when that is frozen, the
      last frozen row otherwise. */
  function HeaderLastRow(startRow: int, frozenRows: int): (k: int)
    ensures k == Min(startRow - 1, frozenRows)
  {
    if startRow <= frozenRows then startRow - 1 else frozenRows
  }

  /** No header is added exactly when there are no frozen rows or the range
      starts at row 1; otherwise a header exists whenever the range parses. */
  lemma HeaderNone(cellRange: string, frozenRows: int)
    ensures HeaderRange(cellRange, frozenRows) == Ok(None)
      <==> frozenRows == 0 || (RangeBounds(cellRange).Some? && RangeBounds(cellRange).value.minRow == 1)
    ensures frozenRows != 0 ==> (HeaderRange(cellRange, frozenRows).Ok? <==> RangeBounds(cellRange).Some?)
  {
  }

  /** The header covers rows 1 to the row above the range, but no more than the
      frozen rows, across the range's start and end columns. */
  lemma {:induction false} HeaderRows(cellRange: string, frozenRows: int)
    requires frozenRows >= 1
    requires RangeBounds(cellRange).Some? && RangeBounds(cellRange).value.minRow >= 2
    ensures HeaderRange(cellRange, frozenRows).Ok? && HeaderRange(cellRange, frozenRows).value.Some?
    ensures var x := RangeBounds(cellRange).value;
      RangeBounds(HeaderRange(cellRange, frozenRows).value.value)
        == Some(Rect(1, Min(x.minRow - 1, frozenRows), x.minCol, x.maxCol))
  {
    ParsedBounds(cellRange);
    HeaderRangeOfCells(cellRange, frozenRows);
    var c := Parsed(cellRange).value;
    var x := RangeBounds(cellRange).value;
    HeaderBlock(c.0, c.1, frozenRows, x);
  }

  /** With frozen rows, the header is the header of the range's two cells. */
  lemma HeaderRangeOfCells(cellRange: string, frozenRows: int)
    requires frozenRows != 0 && Parsed(cellRange).Ok?
    ensures HeaderRange(cellRange, frozenRows)
      == Ok(HeaderOfCells(Parsed(cellRange).value.0, Parsed(cellRange).value.1, frozenRows))
  {
  }


  /** A header that is `h` and spans `b` stays so once wrapped as a result. */
  lemma HeaderTransport(h: Option<string>, r: Result<Option<string>, RangeError>, b: Rect)
    requires r == Ok(h) && h.Some? && RangeBounds(h.value) == Some(b)
    ensures r.Ok? && r.value.Some? && RangeBounds(r.value.value) == Some(b)
  {
  }

  /** The block of a header: row 1 to the row above the start cell, but no
      further than the frozen rows, from the start column to the end column;
      `x` is the block of the range from `s` to `e`. */
  lemma HeaderBlock(s: Coord, e: Coord, frozenRows: int, x: Rect)
    requires ValidColumnName(s.column) && ValidColumnName(e.column) && s.row >= 2 && frozenRows >= 1
    requires x == Rect(s.row, e.row, ColIdx(s), ColIdx(e))
    ensures HeaderOfCells(s, e, frozenRows).Some?
    ensures RangeBounds(HeaderOfCells(s, e, frozenRows).value) == Some(Rect(1, Min(x.minRow - 1, frozenRows), x.minCol, x.maxCol))
  {
    var k := HeaderLastRow(s.row, frozenRows);
    assert RangeBounds(TwoCells(s.column, 1, e.column, k)) == Some(Rect(1, k, x.minCol, x.maxCol)) by {
      TwoCellsBounds(s.column, 1, e.column, k);
      assert ColIdx(Coord(s.column, 1)) == ColIdx(s) && ColIdx(Coord(e.column, k)) == ColIdx(e);
    }
    assert k == Min(x.minRow - 1, frozenRows);
    assert HeaderOfCells(s, e, frozenRows) == Some(TwoCells(s.column, 1, e.column, k));
  }

  /** The header as text, once the range is read. */
  lemma HeaderValue(cellRange: string, frozenRows: int)
    requires frozenRows >= 1
    requires Parsed(cellRange).Ok? && Parsed(cellRange).value.0.row >= 2
    ensures var (s, e) := Parsed(cellRange).value;
      var k := if s.row <= frozenRows then s.row - 1 else frozenRows;
      HeaderRange(cellRange, frozenRows) == Ok(Some(TwoCells(s.column, 1, e.column, k)))
  {
  }

  /** Merging the header with its range gives the range extended up to row 1:
      `"A2:B6"` with two frozen rows becomes `"A1:B6"`. */
  lemma {:induction false} HeaderCompletesRange(cellRange: string, frozenRows: int)
    requires frozenRows >= 1
    requires RangeBounds(cellRange).Some?
    requires var x := RangeBounds(cellRange).value; 2 <= x.minRow <= x.maxRow
    ensures HeaderRange(cellRange, frozenRows).Ok? && HeaderRange(cellRange, frozenRows).value.Some?
    ensures var x := RangeBounds(cellRange).value;
      MergeRanges(HeaderRange(cellRange, frozenRows).value.value, cellRange)
        == Ok(CoordString(x.minCol, 1) + ":" + CoordString(x.maxCol, x.maxRow))
  {
    HeaderRows(cellRange, frozenRows);
    var x := RangeBounds(cellRange).value;
    var h := HeaderRange(cellRange, frozenRows).value.value;
    MergeIsHull(h, cellRange);
    assert Hull(RangeBounds(h).value, x) == Rect(1, x.maxRow, x.minCol, x.maxCol);
  }

  // ---------------------------------------------------------------- merge_ranges

  /** The smallest range containing both ranges, written with normalised
      (upper-case) column letters. It fails only by unpacking or by a cell
      that does not parse, and succeeds only when both ranges unpack. */
  function MergeRanges(range1: string, range2: string): (r: Result<string, RangeError>)
    ensures r.Err? ==> r.error == Unpack || r.error == BadCoordinate
    ensures r.Ok? ==> RangeEnds(range1).Some? && RangeEnds(range2).Some?
  {
    var e1 :- Ends(range1);
    var e2 :- Ends(range2);
    var a1 :- Cell(e1.0);
    var b1 :- Cell(e1.1);
    var a2 :- Cell(e2.0);
    var b2 :- Cell(e2.1);
    var colStart := Min(ColIdx(a1), ColIdx(a2));
    var colEnd := Max(ColIdx(b1), ColIdx(b2));
    var rowStart := Min(a1.row, a2.row);
    var rowEnd := Max(b1.row, b2.row);
    Ok(CoordString(colStart, rowStart) + ":" + CoordString(colEnd, rowEnd))
  }

  /** The merge succeeds exactly when both ranges parse, and then it is the
      text of their per-axis hull, which reads back as that hull. */
  lemma MergeIsHull(range1: string, range2: string)
    ensures MergeRanges(range1, range2).Ok? <==> RangeBounds(range1).Some? && RangeBounds(range2).Some?
    ensures MergeRanges(range1, range2).Ok? ==>
      var h := Hull(RangeBounds(range1).value, RangeBounds(range2).value);
      MergeRanges(range1, range2).value == CoordString(h.minCol, h.minRow) + ":" + CoordString(h.maxCol, h.maxRow)
      && RangeBounds(MergeRanges(range1, range2).value) == Some(h)
  {
    if MergeRanges(range1, range2).Ok? {
      var h := Hull(RangeBounds(range1).value, RangeBounds(range2).value);
      ColumnLetterLength(h.minCol);
      ColumnLetterLength(h.maxCol);
      ParseCoordString(h.minCol, h.minRow);
      ParseCoordString(h.maxCol, h.maxRow);
      BoundsOfTwoCells(ColumnLetter(h.minCol), h.minRow, ColumnLetter(h.maxCol), h.maxRow);
    }
  }

  /** A failed merge reports the unpacking error when either range has more
      than one colon, and the coordinate error otherwise. */
  lemma MergeError(range1: string, range2: string)
    ensures MergeRanges(range1, range2).Err? ==>
      MergeRanges(range1, range2).error
        == (if RangeEnds(range1).None? || RangeEnds(range2).None? then Unpack else BadCoordinate)
  {
  }

  /** The order of the two ranges does not matter, not even for the error. */
  lemma MergeSymmetric(range1: string, range2: string)
    ensures MergeRanges(range1, range2) == MergeRanges(range2, range1)
  {
    MergeIsHull(range1, range2);
    MergeIsHull(range2, range1);
    MergeError(range1, range2);
    MergeError(range2, range1);
    if MergeRanges(range1, range2).Ok? {
      var x := RangeBounds(range1).value;
      var y := RangeBounds(range2).value;
      assert Hull(x, y) == Hull(y, x);
    }
  }

  /** For ordered ranges the merge contains both, and every block containing
      both contains the merge. */
  lemma MergeContainsBoth(range1: string, range2: string)
    requires RangeBounds(range1).Some? && Ordered(RangeBounds(range1).value)
    requires RangeBounds(range2).Some? && Ordered(RangeBounds(range2).value)
    ensures MergeRanges(range1, range2).Ok? && RangeBounds(MergeRanges(range1, range2).value).Some?
    ensures var m := RangeBounds(MergeRanges(range1, range2).value).value;
      Covers(m, RangeBounds(range1).value) && Covers(m, RangeBounds(range2).value)
      && forall z: Rect :: Covers(z, RangeBounds(range1).value) && Covers(z, RangeBounds(range2).value) ==> Covers(z, m)
  {
    MergeIsHull(range1, range2);
  }

  // ---------------------------------------------------------------- expand_axis_range

  /** The many-cell branch of `expand_axis_range`: a same-column range is
      extended up to row 1, a same-row range left to column A; reversed and
      rectangular ranges come back as given. */
  function ExpandPair(rangeStr: string, raw: string): (r: Result<string, RangeError>)
    requires ':' in raw
    ensures r.Err? ==> r.error == BadCoordinate
  {
    var halves := SplitFirst(raw, ':');
    var start :- Cell(RemoveChar(halves.0, '$'));
    var end :- Cell(RemoveChar(halves.1, '$'));
    if start.column == end.column then
      if end.row < start.row then Ok(rangeStr)
      else Ok(TwoCells(start.column, 1, end.column, end.row))
    else if start.row == end.row then
      if ColIdx(end) < ColIdx(start) then Ok(rangeStr)
      else Ok(TwoCells("A", start.row, end.column, end.row))
    else Ok(rangeStr)
  }

  /** `expand_axis_range` as written. The single-cell branch guards the parse
      with `except ValueError`, but `coordinate_from_string` raises
      `CellCoordinatesException`, which is not a `ValueError`: an unparsable
      single cell raises instead of coming back unchanged. */
  function ExpandAxisRangeAsWritten(rangeStr: string): (r: Result<string, RangeError>)
    ensures r.Err? ==> r.error == BadCoordinate
    ensures rangeStr == "" ==> r == Ok("")
  {
    if rangeStr == [] then Ok(rangeStr)
    else
      var raw := Strip(rangeStr);
      if ':' !in raw then
        var c :- Cell(RemoveChar(raw, '$'));
        Ok(TwoCells(c.column, 1, c.column, c.row))
      else ExpandPair(rangeStr, raw)
  }

  /** "C0" is not a cell: there is no row 0. */
  lemma C0NotACell()
    ensures Strip("C0") == "C0" && RemoveChar("C0", '$') == "C0" && ':' !in "C0"
    ensures CoordinateFromString("C0") == None
  {
    assert Strip("C0") == "C0" by { assert !IsSpace('C') && !IsSpace('0'); StripClean("C0"); }
    assert RemoveChar("C0", '$') == "C0" by { RemoveAbsent("C0", '$'); }
    assert CoordinateFromString("C0") == None by {
      assert ValidColumnName("C") && "C" + "0" == "C0";
      RowZeroRefused("C");
    }
  }

  /** The exception escapes for the single cell "C0". */
  lemma ExpandAsWrittenRaises()
    ensures ExpandAxisRangeAsWritten("C0") == Err(BadCoordinate)
  {
    C0NotACell();
  }

  /** `expand_axis_range` as its single-cell handler intends it: an unparsable
      single cell comes back unchanged. */
  function ExpandAxisRange(rangeStr: string): (r: Result<string, RangeError>)
    ensures rangeStr == [] ==> r == Ok([])
  {
    if rangeStr == [] then Ok(rangeStr)
    else
      var raw := Strip(rangeStr);
      if ':' !in raw then
        match CoordinateFromString(RemoveChar(raw, '$'))
        case Some(c) => Ok(TwoCells(c.column, 1, c.column, c.row))
        case None => Ok(rangeStr)
      else ExpandPair(rangeStr, raw)
  }

  /** With the handler working, a single-cell spec never raises. */
  lemma ExpandSingleCellTotal(rangeStr: string)
    ensures ':' !in Strip(rangeStr) ==> ExpandAxisRange(rangeStr).Ok?
  {
  }

  /** An unparsable single cell such as "C0" comes back unchanged. */
  lemma ExpandKeepsNonCell(rangeStr: string)
    requires rangeStr != [] && ':' !in Strip(rangeStr)
    requires CoordinateFromString(RemoveChar(Strip(rangeStr), '$')).None?
    ensures ExpandAxisRange(rangeStr) == Ok(rangeStr)
  {
  }

  /** Wherever the code as written does not raise, both versions agree. */
  lemma ExpandAgrees(rangeStr: string)
    ensures ExpandAxisRangeAsWritten(rangeStr).Ok? ==> ExpandAxisRange(rangeStr) == ExpandAxisRangeAsWritten(rangeStr)
  {
  }

  /** A single cell becomes its column from row 1 down to that cell. */
  lemma ExpandSingleCell(rangeStr: string)
    requires ':' !in Strip(rangeStr) && CoordinateFromString(RemoveChar(Strip(rangeStr), '$')).Some?
    ensures var c := CoordinateFromString(RemoveChar(Strip(rangeStr), '$')).value;
      ExpandAxisRange(rangeStr) == Ok(TwoCells(c.column, 1, c.column, c.row))
      && RangeBounds(TwoCells(c.column, 1, c.column, c.row)) == Some(Rect(1, c.row, ColIdx(c), ColIdx(c)))
  {
    var c := CoordinateFromString(RemoveChar(Strip(rangeStr), '$')).value;
    assert rangeStr != [];
    TwoCellsBounds(c.column, 1, c.column, c.row);
  }

  /** The `$` markers of a single cell are dropped: `"$C$5"` becomes `"C1:C5"`. */
  lemma ExpandMarkedCell(l: string, row: int)
    requires ValidColumnName(l) && row >= 1
    ensures ExpandAxisRange("$" + l + "$" + NatToString(row)) == Ok(TwoCells(l, 1, l, row))
  {
    var d := NatToString(row);
    var marked := "$" + l + "$" + d;
    assert RemoveChar(marked, '$') == l + d by {
      assert marked == ['$'] + (l + (['$'] + d));
      assert RemoveChar(marked, '$') == RemoveChar(l + (['$'] + d), '$');
      RemoveConcat(l, ['$'] + d, '$');
      RemoveConcat(['$'], d, '$');
      assert '$' !in l && '$' !in d;
      RemoveAbsent(l, '$');
      RemoveAbsent(d, '$');
    }
    forall i | 0 <= i < |marked| ensures marked[i] != ':' {
      if i == 0 || i == |l| + 1 {
      } else if i <= |l| {
        assert marked[i] == l[i - 1];
      } else {
        assert marked[i] == d[i - |l| - 2];
      }
    }
    StripClean(marked);
    ParseLettersRow(l, row);
    ExpandSingleCell(marked);
  }

  lemma {:induction false} RemoveConcat(a: string, b: string, c: char)
    ensures RemoveChar(a + b, c) == RemoveChar(a, c) + RemoveChar(b, c)
  {
    if |a| > 0 {
      assert (a + b)[1..] == a[1..] + b;
      RemoveConcat(a[1..], b, c);
    } else {
      assert a + b == b;
    }
  }

  /** A colon spec whose two halves, `$` removed, are cells. */
  predicate IsCellPair(rangeStr: string) {
    ':' in Strip(rangeStr) &&
    var h := SplitFirst(Strip(rangeStr), ':');
    CoordinateFromString(RemoveChar(h.0, '$')).Some? && CoordinateFromString(RemoveChar(h.1, '$')).Some?
  }

  function PairStart(rangeStr: string): (c: Coord)
    requires IsCellPair(rangeStr)
    ensures ValidColumnName(c.column)
  {
    CoordinateFromString(RemoveChar(SplitFirst(Strip(rangeStr), ':').0, '$')).value
  }

  function PairEnd(rangeStr: string): (c: Coord)
    requires IsCellPair(rangeStr)
    ensures ValidColumnName(c.column)
  {
    CoordinateFromString(RemoveChar(SplitFirst(Strip(rangeStr), ':').1, '$')).value
  }

  /** An ordered same-column range is extended up to row 1, keeping its end. */
  lemma ExpandSameColumn(rangeStr: string)
    requires IsCellPair(rangeStr)
    requires PairStart(rangeStr).column == PairEnd(rangeStr).column
    requires PairStart(rangeStr).row <= PairEnd(rangeStr).row
    ensures ExpandAxisRange(rangeStr).Ok?
    ensures RangeBounds(ExpandAxisRange(rangeStr).value)
      == Some(Rect(1, PairEnd(rangeStr).row, ColIdx(PairStart(rangeStr)), ColIdx(PairEnd(rangeStr))))
  {
    var a := PairStart(rangeStr);
    var b := PairEnd(rangeStr);
    assert rangeStr != [];
    assert ExpandAxisRange(rangeStr) == Ok(TwoCells(a.column, 1, b.column, b.row));
    TwoCellsBounds(a.column, 1, b.column, b.row);
  }

  lemma ColumnA(row: int)
    ensures ValidColumnName("A") && ColIdx(Coord("A", row)) == 1
  {
    assert ColumnLetter(1) == "A" == Upper("A");
    assert ColumnIndexFromString("A") == Some(1);
  }

  /** An ordered same-row range is extended left to column A, keeping its end. */
  lemma ExpandSameRow(rangeStr: string)
    requires IsCellPair(rangeStr)
    requires PairStart(rangeStr).column != PairEnd(rangeStr).column
    requires PairStart(rangeStr).row == PairEnd(rangeStr).row
    requires ColIdx(PairStart(rangeStr)) <= ColIdx(PairEnd(rangeStr))
    ensures ExpandAxisRange(rangeStr).Ok?
    ensures RangeBounds(ExpandAxisRange(rangeStr).value)
      == Some(Rect(PairEnd(rangeStr).row, PairEnd(rangeStr).row, 1, ColIdx(PairEnd(rangeStr))))
  {
    var a := PairStart(rangeStr);
    var b := PairEnd(rangeStr);
    assert rangeStr != [];
    assert ExpandAxisRange(rangeStr) == Ok(TwoCells("A", a.row, b.column, b.row));
    ColumnA(a.row);
    TwoCellsBounds("A", a.row, b.column, b.row);
  }

  /** Reversed ranges and blocks spanning several rows and columns come back
      exactly as given, surrounding whitespace included. */
  lemma ExpandUnchanged(rangeStr: string)
    requires IsCellPair(rangeStr)
    requires var a := PairStart(rangeStr); var b := PairEnd(rangeStr);
      (a.column == b.column && b.row < a.row)
      || (a.column != b.column && a.row == b.row && ColIdx(b) < ColIdx(a))
      || (a.column != b.column && a.row != b.row)
    ensures ExpandAxisRange(rangeStr) == Ok(rangeStr)
  {
    assert rangeStr != [];
  }

  /** A colon spec fails exactly when one of its halves is not a cell. */
  lemma ExpandPairFails(rangeStr: string)
    requires ':' in Strip(rangeStr)
    ensures ExpandAxisRange(rangeStr).Err? <==> !IsCellPair(rangeStr)
  {
    assert rangeStr != [];
  }

  // ---------------------------------------------------------------- calculate_range_size

  /** The `(rows, cols)` pair `calculate_range_size` returns. */
  datatype Size = Size(rows: int, cols: int)

  /** The rows and columns a range spans: (1, 1) without a colon, and (0, 0)
      for anything that does not parse or runs backwards; it never raises. */
  function RangeSize(rangeStr: string): (size: Size)
    ensures size.rows >= 0 && size.cols >= 0
    ensures size.rows == 0 <==> size.cols == 0
  {
    if ':' !in rangeStr then Size(1, 1)
    else
      match RangeBounds(rangeStr)
      case None => Size(0, 0)
      case Some(x) =>
        if x.maxRow < x.minRow || x.maxCol < x.minCol then Size(0, 0)
        else Size(x.maxRow - x.minRow + 1, x.maxCol - x.minCol + 1)
  }

  /** The size is one of the three outcomes, and both counts are at least 1
      exactly when a colon range parses in order. */
  lemma RangeSizeCases(rangeStr: string)
    ensures var size := RangeSize(rangeStr);
      && (':' !in rangeStr ==> size == Size(1, 1))
      && (':' in rangeStr && RangeBounds(rangeStr).Some? && Ordered(RangeBounds(rangeStr).value) ==>
            var x := RangeBounds(rangeStr).value;
            size == Size(x.maxRow - x.minRow + 1, x.maxCol - x.minCol + 1) && size.rows >= 1 && size.cols >= 1)
      && (':' in rangeStr && (RangeBounds(rangeStr).None? || !Ordered(RangeBounds(rangeStr).value)) ==>
            size == Size(0, 0))
  {
  }

  /** A colon range that reads back in order has the size of its block. */
  lemma RangeSizeOfBounds(rangeStr: string)
    requires ':' in rangeStr && RangeBounds(rangeStr).Some? && Ordered(RangeBounds(rangeStr).value)
    ensures var x := RangeBounds(rangeStr).value;
      RangeSize(rangeStr) == Size(x.maxRow - x.minRow + 1, x.maxCol - x.minCol + 1)
  {
  }

  /** The text of a block has the size of that block. */
  lemma RangeSizeOfRangeString(r: Rect)
    requires ValidRect(r)
    ensures RangeSize(RangeString(r)) == Size(r.maxRow - r.minRow + 1, r.maxCol - r.minCol + 1)
  {
    if r.minRow == r.maxRow && r.minCol == r.maxCol {
      NoColonInLettersRow(ColumnLetter(r.minCol), r.minRow);
    } else {
      RangeStringBounds(r);
      var s := RangeString(r);
      assert s[|CoordString(r.minCol, r.minRow)|] == ':';
    }
  }

  // ---------------------------------------------------------------- normalize_column_range

  /** The two halves of a colon spec. */
  datatype Halves = Halves(first: string, second: string)

  /** The two halves of a colon spec, split at the first colon, `$` removed. */
  function PairColumns(raw: string): Halves
    requires ':' in raw
  {
    var h := SplitFirst(raw, ':');
    Halves(RemoveChar(h.0, '$'), RemoveChar(h.1, '$'))
  }

  /** A colon spec whose halves are letters only, such as `"$J:$K"`. */
  predicate IsColumnPair(raw: string) {
    ':' in raw && IsAlpha(PairColumns(raw).first) && IsAlpha(PairColumns(raw).second)
  }

  /** `normalize_column_range`: a bare column (`"J"`, `"$J"`) or column pair
      (`"J:K"`, `"$J:$K"`) becomes an upper-case range from row 1 to `maxRow`;
      a reversed pair raises; every other spec comes back unchanged. */
  function NormalizeColumnRange(cellRange: string, maxRow: int): (r: Result<string, RangeError>)
    ensures Strip(cellRange) == [] ==> r == Ok(cellRange)
  {
    var raw := Strip(cellRange);
    if raw == [] then Ok(cellRange)
    else if IsColumnPair(raw) then
      var startCol := Upper(PairColumns(raw).first);
      var endCol := Upper(PairColumns(raw).second);
      match ColumnIndexFromString(endCol)
      case None => Err(BadColumn)
      case Some(endIdx) =>
        match ColumnIndexFromString(startCol)
        case None => Err(BadColumn)
        case Some(startIdx) =>
          if endIdx < startIdx then Err(ReversedColumns)
          else Ok(TwoCells(startCol, 1, endCol, maxRow))
    else
      var colOnly := RemoveChar(raw, '$');
      if IsAlpha(colOnly) then Ok(TwoCells(Upper(colOnly), 1, Upper(colOnly), maxRow))
      else Ok(cellRange)
  }

  lemma SameIndexUpper(s: string)
    requires IsAlpha(s)
    ensures IsAlpha(Upper(s)) && |Upper(s)| == |s|
    ensures ColumnIndexFromString(Upper(s)) == ColumnIndexFromString(s)
  {
    UpperOfAlpha(s);
    var u := Upper(s);
    assert Upper(u) == u;
  }

  /** A column pair fails on a column name longer than three letters. */
  lemma NormalizePairTooLong(cellRange: string, maxRow: int)
    requires IsColumnPair(Strip(cellRange))
    ensures var Halves(s, e) := PairColumns(Strip(cellRange));
      NormalizeColumnRange(cellRange, maxRow) == Err(BadColumn) <==> |s| > 3 || |e| > 3
  {
    var Halves(s, e) := PairColumns(Strip(cellRange));
    SameIndexUpper(s);
    SameIndexUpper(e);
    var sc := Upper(s);
    var ec := Upper(e);
    assert Strip(cellRange) != [];
    if |e| > 3 {
      assert ColumnIndexFromString(ec).None?;
    } else if |s| > 3 {
      assert ColumnIndexFromString(ec).Some? && ColumnIndexFromString(sc).None?;
    } else {
      assert ColumnIndexFromString(ec).Some? && ColumnIndexFromString(sc).Some?;
    }
  }

  /** A column pair of valid names fails exactly when it is reversed (`"K:J"`). */
  lemma NormalizePairReversed(cellRange: string, maxRow: int)
    requires IsColumnPair(Strip(cellRange))
    requires var Halves(s, e) := PairColumns(Strip(cellRange)); |s| <= 3 && |e| <= 3
    ensures var Halves(s, e) := PairColumns(Strip(cellRange));
      (NormalizeColumnRange(cellRange, maxRow) == Err(ReversedColumns)
       <==> ColumnIndexFromString(e).value < ColumnIndexFromString(s).value)
    ensures var Halves(s, e) := PairColumns(Strip(cellRange));
      (ColumnIndexFromString(s).value <= ColumnIndexFromString(e).value
       ==> NormalizeColumnRange(cellRange, maxRow) == Ok(TwoCells(Upper(s), 1, Upper(e), maxRow)))
  {
    var Halves(s, e) := PairColumns(Strip(cellRange));
    SameIndexUpper(s);
    SameIndexUpper(e);
  }

  lemma UpperColumn(s: string, row: int)
    requires ValidColumnName(s) && row >= 1
    ensures ValidColumnName(Upper(s)) && ColIdx(Coord(Upper(s), row)) == ColumnIndexFromString(s).value
  {
    SameIndexUpper(s);
  }

  /** An ordered column pair becomes the block of those columns from row 1 to
      `maxRow`: `"A:C"` with one row becomes `"A1:C1"`. */
  lemma NormalizePairBlock(cellRange: string, maxRow: int)
    requires IsColumnPair(Strip(cellRange)) && maxRow >= 1
    requires var Halves(s, e) := PairColumns(Strip(cellRange));
      |s| <= 3 && |e| <= 3 && ColumnIndexFromString(s).value <= ColumnIndexFromString(e).value
    ensures var Halves(s, e) := PairColumns(Strip(cellRange));
      var si := ColumnIndexFromString(s).value;
      var ei := ColumnIndexFromString(e).value;
      && NormalizeColumnRange(cellRange, maxRow).Ok?
      && RangeBounds(NormalizeColumnRange(cellRange, maxRow).value) == Some(Rect(1, maxRow, si, ei))
  {
    var Halves(s, e) := PairColumns(Strip(cellRange));
    NormalizePairReversed(cellRange, maxRow);
    UpperColumn(s, 1);
    UpperColumn(e, maxRow);
    TwoCellsBounds(Upper(s), 1, Upper(e), maxRow);
  }

  /** The block a column pair normalises to spans `maxRow` rows. */
  lemma NormalizePairSize(cellRange: string, maxRow: int)
    requires IsColumnPair(Strip(cellRange)) && maxRow >= 1
    requires var Halves(s, e) := PairColumns(Strip(cellRange));
      |s| <= 3 && |e| <= 3 && ColumnIndexFromString(s).value <= ColumnIndexFromString(e).value
    ensures var Halves(s, e) := PairColumns(Strip(cellRange));
      NormalizeColumnRange(cellRange, maxRow).Ok?
      && RangeSize(NormalizeColumnRange(cellRange, maxRow).value)
        == Size(maxRow, ColumnIndexFromString(e).value - ColumnIndexFromString(s).value + 1)
  {
    var Halves(s, e) := PairColumns(Strip(cellRange));
    NormalizePairReversed(cellRange, maxRow);
    UpperColumn(s, 1);
    UpperColumn(e, maxRow);
    SizeOfTwoCells(Upper(s), 1, Upper(e), maxRow);
  }

  lemma SizeOfTwoCells(l1: string, r1: int, l2: string, r2: int)
    requires ValidColumnName(l1) && ValidColumnName(l2) && 1 <= r1 <= r2
    requires ColIdx(Coord(l1, r1)) <= ColIdx(Coord(l2, r2))
    ensures RangeSize(TwoCells(l1, r1, l2, r2)) == Size(r2 - r1 + 1, ColIdx(Coord(l2, r2)) - ColIdx(Coord(l1, r1)) + 1)
  {
    TwoCellsBounds(l1, r1, l2, r2);
    TwoCellsColon(l1, r1, l2, r2);
    RangeSizeOfBounds(TwoCells(l1, r1, l2, r2));
  }

  lemma TwoCellsColon(l1: string, r1: int, l2: string, r2: int)
    ensures ':' in TwoCells(l1, r1, l2, r2)
  {
    assert TwoCells(l1, r1, l2, r2)[|l1| + |IntToString(r1)|] == ':';
  }

  /** A bare column normalises to that column from row 1 to `maxRow`. */
  lemma NormalizeSingleColumn(cellRange: string, maxRow: int)
    requires Strip(cellRange) != [] && !IsColumnPair(Strip(cellRange))
    requires IsAlpha(RemoveChar(Strip(cellRange), '$'))
    ensures var c := RemoveChar(Strip(cellRange), '$');
      NormalizeColumnRange(cellRange, maxRow) == Ok(TwoCells(Upper(c), 1, Upper(c), maxRow))
    ensures var c := RemoveChar(Strip(cellRange), '$');
      ValidColumnName(c) && maxRow >= 1 ==>
        var ci := ColumnIndexFromString(c).value;
        RangeBounds(TwoCells(Upper(c), 1, Upper(c), maxRow)) == Some(Rect(1, maxRow, ci, ci))
  {
    var c := RemoveChar(Strip(cellRange), '$');
    if ValidColumnName(c) && maxRow >= 1 {
      UpperColumn(c, 1);
      UpperColumn(c, maxRow);
      TwoCellsBounds(Upper(c), 1, Upper(c), maxRow);
    }
  }

  /** Specs that are neither blank nor letters come back unchanged:
      `"A1:B10"` and `"C5"` stay as they are. */
  lemma NormalizePassThrough(cellRange: string, maxRow: int)
    requires Strip(cellRange) != [] && !IsColumnPair(Strip(cellRange))
    requires !IsAlpha(RemoveChar(Strip(cellRange), '$'))
    ensures NormalizeColumnRange(cellRange, maxRow) == Ok(cellRange)
  {
  }

  /** The text `L1:R<n>` has no surrounding whitespace. */
  lemma TwoCellsClean(l: string, r: string, n: int)
    requires IsAlpha(l)
    ensures Strip(TwoCells(l, 1, r, n)) == TwoCells(l, 1, r, n)
  {
    var t := TwoCells(l, 1, r, n);
    var m := IntToString(n);
    assert t[0] == l[0];
    assert t[|t| - 1] == m[|m| - 1];
    assert IsDigit(m[|m| - 1]) by {
      if n < 0 {
        var p := NatToString(-n);
        assert m == "-" + p && m[|m| - 1] == p[|p| - 1];
      }
    }
    StripClean(t);
  }

  /** The text `L1:R<n>` is not a column pair: its first half ends in a digit. */
  lemma TwoCellsNotPair(l: string, r: string, n: int)
    requires IsAlpha(l)
    ensures !IsColumnPair(TwoCells(l, 1, r, n))
  {
    var t := TwoCells(l, 1, r, n);
    var first := l + "1";
    assert t == first + [':'] + (r + IntToString(n));
    forall i | 0 <= i < |first| ensures first[i] != ':' && first[i] != '$' {
      if i < |l| { assert first[i] == l[i]; }
    }
    IndexOfAfterFree(first, ':', r + IntToString(n));
    assert SplitFirst(t, ':').0 == first;
    RemoveAbsent(first, '$');
    assert first[|l|] == '1';
  }

  /** The text `L1:R<n>` is not a bare column: it holds a colon. */
  lemma TwoCellsNotColumn(l: string, r: string, n: int)
    ensures !IsAlpha(RemoveChar(TwoCells(l, 1, r, n), '$'))
  {
    var t := TwoCells(l, 1, r, n);
    TwoCellsColon(l, 1, r, n);
    assert ':' in RemoveChar(t, '$');
  }

  /** The text `L1:R<n>` normalises to itself. */
  lemma TwoCellsFixed(l: string, r: string, n: int)
    requires IsAlpha(l)
    ensures NormalizeColumnRange(TwoCells(l, 1, r, n), n) == Ok(TwoCells(l, 1, r, n))
  {
    TwoCellsClean(l, r, n);
    TwoCellsNotPair(l, r, n);
    TwoCellsNotColumn(l, r, n);
    assert TwoCells(l, 1, r, n) != [];
  }

  /** Normalising a normalised spec changes nothing. */
  lemma NormalizeIdempotent(cellRange: string, maxRow: int)
    requires NormalizeColumnRange(cellRange, maxRow).Ok?
    ensures var t := NormalizeColumnRange(cellRange, maxRow).value;
      NormalizeColumnRange(t, maxRow) == Ok(t)
  {
    var raw := Strip(cellRange);
    if raw == [] {
    } else if IsColumnPair(raw) {
      var Halves(s, e) := PairColumns(raw);
      SameIndexUpper(s);
      NormalizePairTooLong(cellRange, maxRow);
      NormalizePairReversed(cellRange, maxRow);
      TwoCellsFixed(Upper(s), Upper(e), maxRow);
    } else if IsAlpha(RemoveChar(raw, '$')) {
      var c := RemoveChar(raw, '$');
      SameIndexUpper(c);
      assert NormalizeColumnRange(cellRange, maxRow) == Ok(TwoCells(Upper(c), 1, Upper(c), maxRow));
      TwoCellsFixed(Upper(c), Upper(c), maxRow);
    }
  }

  // ---------------------------------------------------------------- worked cases

  /** A one-letter column name is the column of that letter. */
  lemma OneLetter(c: char)
    requires IsUpperLetter(c)
    ensures ValidColumnName([c]) && Upper([c]) == [c]
    ensures ColumnIndexFromString([c]) == Some(LetterValue(c))
    ensures ColumnLetter(LetterValue(c)) == [c]
  {
    assert IsAlpha([c]) && IsUpperLetters([c]);
    UpperOfAlpha([c]);
    assert ColumnIndex([c]) == ColumnIndex([c][..0]) * 26 + LetterValue(c);
    assert [c][..0] == [];
    assert LetterOf(LetterValue(c)) == c;
  }

  /** Two cells written in the A1 style read back as those cells. */
  lemma ParsedTwoCells(l1: string, r1: int, l2: string, r2: int)
    requires ValidColumnName(l1) && ValidColumnName(l2) && r1 >= 1 && r2 >= 1
    ensures Parsed(TwoCells(l1, r1, l2, r2)) == Ok((Coord(l1, r1), Coord(l2, r2)))
  {
    TwoCellsBounds(l1, r1, l2, r2);
    ParseLettersRow(l1, r1);
    ParseLettersRow(l2, r2);
  }

  /** Letters followed by a row hold no `$` marker. */
  lemma NoMarkInLettersRow(l: string, row: int)
    requires IsAlpha(l) && row >= 0
    ensures '$' !in l + NatToString(row)
  {
    var s := l + NatToString(row);
    forall i | 0 <= i < |s| ensures s[i] != '$' {
      if i < |l| { assert s[i] == l[i]; } else { assert s[i] == NatToString(row)[i - |l|]; }
    }
  }

  /** A two-cell range has no surrounding whitespace. */
  lemma TwoCellsStripped(l1: string, r1: int, l2: string, r2: int)
    requires IsAlpha(l1) && r2 >= 0
    ensures Strip(TwoCells(l1, r1, l2, r2)) == TwoCells(l1, r1, l2, r2)
  {
    var t := TwoCells(l1, r1, l2, r2);
    var d := NatToString(r2);
    assert t[0] == l1[0];
    assert t[|t| - 1] == d[|d| - 1];
    StripClean(t);
  }

  /** Splitting at a separator that the first part does not hold. */
  lemma SplitFirstAt(a: string, sep: char, b: string)
    requires sep !in a
    ensures sep in a + [sep] + b && SplitFirst(a + [sep] + b, sep) == (a, b)
  {
    var t := a + [sep] + b;
    IndexOfAfterFree(a, sep, b);
    assert t[..|a|] == a;
    assert t[|a| + 1..] == b;
  }

  /** A two-cell range comes apart at its colon into its two cells. */
  lemma TwoCellsHalves(l1: string, r1: int, l2: string, r2: int)
    requires IsAlpha(l1) && r1 >= 0 && r2 >= 0
    ensures ':' in TwoCells(l1, r1, l2, r2)
    ensures SplitFirst(TwoCells(l1, r1, l2, r2), ':') == (l1 + NatToString(r1), l2 + NatToString(r2))
  {
    var a := l1 + NatToString(r1);
    var b := l2 + NatToString(r2);
    assert TwoCells(l1, r1, l2, r2) == a + [':'] + b;
    NoColonInLettersRow(l1, r1);
    SplitFirstAt(a, ':', b);
  }

  /** A cell written as letters and a row is free of `$` markers. */
  lemma UnmarkedCell(l: string, row: int)
    requires IsAlpha(l) && row >= 0
    ensures RemoveChar(l + NatToString(row), '$') == l + NatToString(row)
  {
    NoMarkInLettersRow(l, row);
    RemoveAbsent(l + NatToString(row), '$');
  }

  /** A bare column name, such as `"j"` or `"ABCD"`, normalises to that column
      in upper case from row 1 to `maxRow`. */
  lemma NormalizeBareColumn(c: string, maxRow: int)
    requires IsAlpha(c)
    ensures NormalizeColumnRange(c, maxRow) == Ok(TwoCells(Upper(c), 1, Upper(c), maxRow))
  {
    assert !IsSpace(c[0]) && !IsSpace(c[|c| - 1]);
    StripClean(c);
    assert ':' !in c by {
      forall i | 0 <= i < |c| ensures c[i] != ':' { assert IsAsciiLetter(c[i]); }
    }
    assert '$' !in c by {
      forall i | 0 <= i < |c| ensures c[i] != '$' { assert IsAsciiLetter(c[i]); }
    }
    RemoveAbsent(c, '$');
    NormalizeSingleColumn(c, maxRow);
  }

  /** The header of a two-cell range, as text. */
  lemma HeaderOfTwoCells(l1: string, r1: int, l2: string, r2: int, frozenRows: int)
    requires ValidColumnName(l1) && ValidColumnName(l2) && r1 >= 1 && r2 >= 1 && frozenRows >= 1
    ensures HeaderRange(TwoCells(l1, r1, l2, r2), frozenRows)
      == Ok(if r1 == 1 then None else Some(TwoCells(l1, 1, l2, Min(r1 - 1, frozenRows))))
  {
    ParsedTwoCells(l1, r1, l2, r2);
    if r1 >= 2 {
      HeaderValue(TwoCells(l1, r1, l2, r2), frozenRows);
    }
  }

  lemma HeaderTexts()
    ensures "A5:D10" == TwoCells("A", 5, "D", 10) && "A1:D10" == TwoCells("A", 1, "D", 10)
    ensures "A2:B6" == TwoCells("A", 2, "B", 6)
    ensures TwoCells("A", 1, "D", 2) == "A1:D2" && TwoCells("A", 1, "B", 1) == "A1:B1"
  {
    assert NatToString(10) == NatToString(1) + [DigitChar(0)];
  }

  lemma HeaderCells()
    ensures HeaderRange(TwoCells("A", 5, "D", 10), 2) == Ok(Some(TwoCells("A", 1, "D", 2)))
    ensures HeaderRange(TwoCells("A", 1, "D", 10), 2) == Ok(None)
    ensures HeaderRange(TwoCells("A", 2, "B", 6), 2) == Ok(Some(TwoCells("A", 1, "B", 1)))
  {
    OneLetter('A');
    OneLetter('B');
    OneLetter('D');
    HeaderOfTwoCells("A", 5, "D", 10, 2);
    HeaderOfTwoCells("A", 1, "D", 10, 2);
    HeaderOfTwoCells("A", 2, "B", 6, 2);
  }

  /** The header cases of the tests: `"A5:D10"` with two frozen rows has the
      header `"A1:D2"`, `"A2:B6"` has `"A1:B1"`, and no header is added without
      frozen rows or for a range from row 1. */
  lemma HeaderRangeExamples()
    ensures HeaderRange("A5:D10", 2) == Ok(Some("A1:D2"))
    ensures HeaderRange("A5:D10", 0) == Ok(None)
    ensures HeaderRange("A1:D10", 2) == Ok(None)
    ensures HeaderRange("A2:B6", 2) == Ok(Some("A1:B1"))
  {
    HeaderTexts();
    HeaderCells();
  }

  lemma SingleCellTexts()
    ensures "B5" == "B" + NatToString(5) && ':' !in "B5"
    ensures TwoCells("B", 1, "B", 2) == "B1:B2"
  {
  }

  lemma SingleCellHeader()
    ensures HeaderRange("B" + NatToString(5), 2) == Ok(Some(TwoCells("B", 1, "B", 2)))
  {
    OneLetter('B');
    ParseLettersRow("B", 5);
    NoColonInLettersRow("B", 5);
  }

  /** The header of the single cell `"B5"` with two frozen rows is `"B1:B2"`. */
  lemma HeaderSingleCellExample()
    ensures HeaderRange("B5", 2) == Ok(Some("B1:B2"))
  {
    SingleCellTexts();
    SingleCellHeader();
  }

  lemma MergeTexts()
    ensures TwoCells("A", 1, "B", 2) == "A1:B2" && TwoCells("A", 4, "B", 6) == "A4:B6"
    ensures CoordString(1, 1) + ":" + CoordString(2, 6) == "A1:B6"
  {
    assert ColumnLetter(1) == [LetterOf(1)] && ColumnLetter(2) == [LetterOf(2)];
  }

  lemma MergeCells()
    ensures MergeRanges(TwoCells("A", 1, "B", 2), TwoCells("A", 4, "B", 6))
      == Ok(CoordString(1, 1) + ":" + CoordString(2, 6))
  {
    OneLetter('A');
    OneLetter('B');
    TwoCellsBounds("A", 1, "B", 2);
    TwoCellsBounds("A", 4, "B", 6);
    MergeIsHull(TwoCells("A", 1, "B", 2), TwoCells("A", 4, "B", 6));
  }

  /** `"A1:B2"` merged with `"A4:B6"` is `"A1:B6"`. */
  lemma MergeRangesExample()
    ensures MergeRanges("A1:B2", "A4:B6") == Ok("A1:B6")
  {
    MergeTexts();
    MergeCells();
  }

  lemma ExpandTexts()
    ensures "Z100:Z200" == TwoCells("Z", 100, "Z", 200)
    ensures TwoCells("Z", 1, "Z", 200) == "Z1:Z200"
  {
    assert NatToString(10) == NatToString(1) + [DigitChar(0)];
    assert NatToString(100) == NatToString(10) + [DigitChar(0)];
    assert NatToString(20) == NatToString(2) + [DigitChar(0)];
    assert NatToString(200) == NatToString(20) + [DigitChar(0)];
  }

  lemma ExpandCells()
    ensures ExpandAxisRange(TwoCells("Z", 100, "Z", 200)) == Ok(TwoCells("Z", 1, "Z", 200))
  {
    OneLetter('Z');
    TwoCellsStripped("Z", 100, "Z", 200);
    TwoCellsHalves("Z", 100, "Z", 200);
    UnmarkedCell("Z", 100);
    UnmarkedCell("Z", 200);
    ParseLettersRow("Z", 100);
    ParseLettersRow("Z", 200);
  }

  /** `"Z100:Z200"` is extended up to row 1 as `"Z1:Z200"`. */
  lemma ExpandColumnExample()
    ensures ExpandAxisRange("Z100:Z200") == Ok("Z1:Z200")
  {
    ExpandTexts();
    ExpandCells();
  }

  lemma SizeCells()
    ensures RangeSize(TwoCells("A", 1, "D", 10)) == Size(10, 4)
  {
    OneLetter('A');
    OneLetter('D');
    SizeOfTwoCells("A", 1, "D", 10);
  }

  /** `"A1:D10"` spans 10 rows and 4 columns. */
  lemma RangeSizeExample()
    ensures RangeSize("A1:D10") == Size(10, 4)
  {
    HeaderTexts();
    SizeCells();
  }

  lemma NormalizeTexts()
    ensures IsAlpha("j") && Upper("j") == "J" && TwoCells("J", 1, "J", 100) == "J1:J100"
    ensures IsAlpha("ABCD") && Upper("ABCD") == "ABCD"
    ensures TwoCells("ABCD", 1, "ABCD", 10) == "ABCD1:ABCD10"
  {
    ExpandTexts();
    assert Upper("j")[0] == 'J';
    UpperOfAlpha("ABCD");
  }

  lemma NormalizeCells()
    ensures NormalizeColumnRange("j", 100) == Ok(TwoCells(Upper("j"), 1, Upper("j"), 100))
    ensures NormalizeColumnRange("ABCD", 10) == Ok(TwoCells(Upper("ABCD"), 1, Upper("ABCD"), 10))
  {
    assert IsAlpha("j") && IsAlpha("ABCD");
    NormalizeBareColumn("j", 100);
    NormalizeBareColumn("ABCD", 10);
  }

  /** The lower-case column `"j"` with 100 rows becomes `"J1:J100"`, and the
      four-letter column `"ABCD"` with 10 rows becomes `"ABCD1:ABCD10"`. */
  lemma NormalizeColumnExamples()
    ensures NormalizeColumnRange("j", 100) == Ok("J1:J100")
    ensures NormalizeColumnRange("ABCD", 10) == Ok("ABCD1:ABCD10")
  {
    NormalizeTexts();
    NormalizeCells();
  }
}
