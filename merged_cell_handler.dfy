/** `ExcelMergedCellHandler`: the cache of merged cells for the part of a
    sheet that is returned. Every merged range that meets the target block
    records, for each of its cells inside the target, the range it belongs
    to; it records its anchor value under its range text; and it adds one
    entry to the list of merged ranges. */
module MergedCellHandler {
  import opened Fallible
  import opened Text
  import opened CellRefs

  // ---------------------------------------------------------------- the sheet

  /** The parts of a worksheet the cache reads: the cells that exist, by
      (row, column), with their raw values (`None` for an empty value); the
      merged ranges; the `dimensions` text; and whether the worksheet has the
      `_cells` index. */
  datatype Sheet<V> = Sheet(cells: map<Pos, Option<V>>, merges: seq<Rect>, dimensions: string, indexed: bool)

  predicate AllValid(ms: seq<Rect>) {
    forall i :: 0 <= i < |ms| ==> ValidRect(ms[i])
  }

  /** What a worksheet guarantees of its merged ranges: each is a block of
      cells, and none is listed twice (they form a set). */
  predicate Distinct(ms: seq<Rect>) {
    forall i, j :: 0 <= i < j < |ms| ==> ms[i] != ms[j]
  }

  predicate WellFormed<V>(sheet: Sheet<V>) {
    AllValid(sheet.merges) && Distinct(sheet.merges)
  }

  /** The raw value of the cell at `p`; a cell that does not exist reads as
      `None`. */
  function ValueAt<V>(sheet: Sheet<V>, p: Pos): Option<V> {
    if p in sheet.cells then sheet.cells[p] else None
  }

  // ---------------------------------------------------------------- the results

  /** An anchor: its coordinate text and its serialized value. */
  datatype Anchor<S> = Anchor(coordinate: string, value: Option<S>)

  /** An entry of `merged_ranges`: `{"range": ..., "anchor": {...}}`. */
  datatype MergedRange<S> = MergedRange(range: string, anchor: Anchor<S>)

  /** The three results: coordinate -> range text, range text -> anchor value,
      and the list of merged ranges. */
  datatype Cache<S> = Cache(cellMap: Option<map<string, string>>, anchorMap: Option<map<string, Option<S>>>, ranges: seq<MergedRange<S>>)

  /** `coordinate_from_string` refused an end of the target range. */
  datatype CacheError = BadTarget

  // ---------------------------------------------------------------- the least non-null cell

  /** Python's `(r1, c1) < (r2, c2)`. */
  predicate Before(p: Pos, q: Pos) {
    p.0 < q.0 || (p.0 == q.0 && p.1 < q.1)
  }

  ghost predicate IsLeast(p: Pos, s: set<Pos>) {
    p in s && forall q :: q in s && q != p ==> Before(p, q)
  }

  lemma {:induction false} LeastExists(s: set<Pos>)
    requires s != {}
    ensures exists p :: IsLeast(p, s)
  {
    var x :| x in s;
    if s == {x} {
      assert IsLeast(x, s);
    } else {
      LeastExists(s - {x});
      var p :| IsLeast(p, s - {x});
      if Before(x, p) {
        forall q | q in s && q != x ensures Before(x, q) {
          assert q == p || Before(p, q);
        }
        assert IsLeast(x, s);
      } else {
        assert IsLeast(p, s);
      }
    }
  }

  lemma LeastUnique(p: Pos, q: Pos, s: set<Pos>)
    requires IsLeast(p, s) && IsLeast(q, s)
    ensures p == q
  {
  }

  /** The least position of a non-empty set, in Python's tuple order. */
  ghost function Least(s: set<Pos>): (p: Pos)
    requires s != {}
    ensures IsLeast(p, s)
  {
    LeastExists(s);
    var p :| IsLeast(p, s);
    p
  }

  /** The cells the `_cells` scan may choose: cells that exist, lie in the
      merge and have a non-null serialized value. */
  ghost function IndexedCandidates<V, S>(sheet: Sheet<V>, m: Rect, ser: Option<V> -> Option<S>): set<Pos> {
    set p | p in sheet.cells && InRect(p, m) && ser(sheet.cells[p]).Some?
  }

  /** The cells the row-by-row scan may choose: every cell of the merge whose
      serialized value is non-null. */
  ghost function ScanCandidates<V, S>(sheet: Sheet<V>, m: Rect, ser: Option<V> -> Option<S>): set<Pos> {
    set r, c | m.minRow <= r <= m.maxRow && m.minCol <= c <= m.maxCol && ser(ValueAt(sheet, (r, c))).Some? :: (r, c)
  }

  ghost function Candidates<V, S>(sheet: Sheet<V>, m: Rect, ser: Option<V> -> Option<S>): set<Pos> {
    if sheet.indexed then IndexedCandidates(sheet, m, ser) else ScanCandidates(sheet, m, ser)
  }

  lemma CandidatesInside<V, S>(sheet: Sheet<V>, m: Rect, ser: Option<V> -> Option<S>, p: Pos)
    requires p in Candidates(sheet, m, ser)
    ensures InRect(p, m) && ser(ValueAt(sheet, p)).Some?
  {
  }

  /** What `_find_anchor_value_in_merge` returns: the least candidate with its
      value, or the top-left cell with no value when there is none. */
  ghost function SearchAnchor<V, S>(sheet: Sheet<V>, m: Rect, ser: Option<V> -> Option<S>): (a: Anchor<S>)
    requires ValidRect(m)
    ensures a.value.Some? <==> Candidates(sheet, m, ser) != {}
  {
    var cs := Candidates(sheet, m, ser);
    if cs == {} then Anchor(CoordString(m.minCol, m.minRow), None)
    else
      var p := Least(cs);
      CandidatesInside(sheet, m, ser, p);
      Anchor(CoordString(p.1, p.0), ser(ValueAt(sheet, p)))
  }

  /** The candidates of `s` that come before `cur` in row-major order. */
  ghost function Prefix(s: set<Pos>, cur: Pos): set<Pos> {
    set p | p in s && Before(p, cur)
  }

  /** The search state `best_rc`, `best_val` after looking at the cells
      `done`: the least of them, with its value. */
  ghost predicate Tracks<V, S>(best: Option<Pos>, bestVal: Option<S>, done: set<Pos>, sheet: Sheet<V>, ser: Option<V> -> Option<S>) {
    && (best.None? <==> done == {})
    && (best.Some? ==> IsLeast(best.value, done) && bestVal == ser(ValueAt(sheet, best.value)))
  }

  /** `_find_anchor_value_in_merge`: the non-null cell of the merge with the
      smallest (row, column), from the `_cells` index when the sheet has one
      and by visiting every cell of the merge otherwise. */
  method FindAnchorValueInMerge<V, S>(sheet: Sheet<V>, m: Rect, ser: Option<V> -> Option<S>) returns (a: Anchor<S>)
    requires ValidRect(m)
    ensures a == SearchAnchor(sheet, m, ser)
  {
    var best: Option<Pos>;
    var bestVal: Option<S>;
    ghost var cs := Candidates(sheet, m, ser);
    if sheet.indexed {
      best, bestVal := ScanIndexed(sheet, m, ser);
    } else {
      best, bestVal := ScanMerge(sheet, m, ser);
    }
    if best.Some? {
      LeastUnique(best.value, Least(cs), cs);
      CandidatesInside(sheet, m, ser, best.value);
      var (r, c) := best.value;
      a := Anchor(CoordString(c, r), bestVal);
    } else {
      a := Anchor(CoordString(m.minCol, m.minRow), None);
    }
  }

  /** The fast path: every cell of `_cells`, in any order. */
  method ScanIndexed<V, S>(sheet: Sheet<V>, m: Rect, ser: Option<V> -> Option<S>) returns (best: Option<Pos>, bestVal: Option<S>)
    ensures Tracks(best, bestVal, IndexedCandidates(sheet, m, ser), sheet, ser)
  {
    best, bestVal := None, None;
    ghost var cs := IndexedCandidates(sheet, m, ser);
    var rest := sheet.cells.Keys;
    while rest != {}
      invariant rest <= sheet.cells.Keys
      invariant Tracks(best, bestVal, cs - rest, sheet, ser)
      decreases rest
    {
      var p :| p in rest;
      if InRect(p, m) {
        var v := ser(sheet.cells[p]);
        if v.Some? && (best.None? || Before(p, best.value)) {
          best, bestVal := Some(p), v;
        }
      }
      assert cs - (rest - {p}) == (cs - rest) + (if p in cs then {p} else {});
      rest := rest - {p};
    }
  }

  /** The fallback: every cell of the merge, row by row. */
  method ScanMerge<V, S>(sheet: Sheet<V>, m: Rect, ser: Option<V> -> Option<S>) returns (best: Option<Pos>, bestVal: Option<S>)
    requires ValidRect(m)
    ensures Tracks(best, bestVal, ScanCandidates(sheet, m, ser), sheet, ser)
  {
    best, bestVal := None, None;
    ghost var cs := ScanCandidates(sheet, m, ser);
    var row := m.minRow;
    while row <= m.maxRow
      invariant m.minRow <= row <= m.maxRow + 1
      invariant Tracks(best, bestVal, Prefix(cs, (row, m.minCol)), sheet, ser)
    {
      var col := m.minCol;
      while col <= m.maxCol
        invariant m.minCol <= col <= m.maxCol + 1
        invariant Tracks(best, bestVal, Prefix(cs, (row, col)), sheet, ser)
      {
        var v := ser(ValueAt(sheet, (row, col)));
        if v.Some? && (best.None? || Before((row, col), best.value)) {
          best, bestVal := Some((row, col)), v;
        }
        PrefixNext(cs, row, col);
        col := col + 1;
      }
      PrefixRow(sheet, m, ser, row);
      row := row + 1;
    }
    PrefixAll(sheet, m, ser);
  }

  lemma PrefixNext(s: set<Pos>, row: int, col: int)
    ensures Prefix(s, (row, col + 1)) == Prefix(s, (row, col)) + (if (row, col) in s then {(row, col)} else {})
  {
  }

  lemma PrefixRow<V, S>(sheet: Sheet<V>, m: Rect, ser: Option<V> -> Option<S>, row: int)
    ensures Prefix(ScanCandidates(sheet, m, ser), (row, m.maxCol + 1)) == Prefix(ScanCandidates(sheet, m, ser), (row + 1, m.minCol))
  {
  }

  lemma PrefixAll<V, S>(sheet: Sheet<V>, m: Rect, ser: Option<V> -> Option<S>)
    ensures Prefix(ScanCandidates(sheet, m, ser), (m.maxRow + 1, m.minCol)) == ScanCandidates(sheet, m, ser)
  {
  }

  // ---------------------------------------------------------------- filling the coordinate map

  /** `base` with cells `fromCol..toCol` of `row` mapped to `v`, one at a
      time as the inner loop does. */
  ghost function FillCols(base: map<string, string>, row: int, fromCol: int, toCol: int, v: string): map<string, string>
    requires 1 <= fromCol && row >= 1
    decreases toCol - fromCol
  {
    if toCol < fromCol then base
    else FillCols(base, row, fromCol, toCol - 1, v)[CoordString(toCol, row) := v]
  }

  /** `base` with rows `b.minRow..toRow` of `b` mapped to `v`, row by row as
      the outer loop does. */
  ghost function FillRows(base: map<string, string>, b: Rect, toRow: int, v: string): map<string, string>
    requires ValidRect(b)
    decreases toRow - b.minRow
  {
    if toRow < b.minRow then base
    else FillCols(FillRows(base, b, toRow - 1, v), toRow, b.minCol, b.maxCol, v)
  }

  /** `base` with every cell of `b` mapped to `v`. */
  ghost function Fill(base: map<string, string>, b: Rect, v: string): map<string, string>
    requires ValidRect(b)
  {
    FillRows(base, b, b.maxRow, v)
  }

  /** A cell's entry after filling part of a row: `v` inside the part, the old
      entry elsewhere. */
  lemma {:induction false} FillColsAt(base: map<string, string>, row: int, fromCol: int, toCol: int, v: string, r: int, c: int)
    requires 1 <= fromCol && toCol <= MaxColumn && row >= 1 && 1 <= c <= MaxColumn && r >= 1
    ensures var m := FillCols(base, row, fromCol, toCol, v);
      var inside := r == row && fromCol <= c <= toCol;
      && (CoordString(c, r) in m <==> inside || CoordString(c, r) in base)
      && (inside ==> m[CoordString(c, r)] == v)
      && (!inside && CoordString(c, r) in base ==> m[CoordString(c, r)] == base[CoordString(c, r)])
    decreases toCol - fromCol
  {
    if toCol >= fromCol {
      FillColsAt(base, row, fromCol, toCol - 1, v, r, c);
      if CoordString(c, r) == CoordString(toCol, row) {
        CoordStringInjective(c, r, toCol, row);
      }
    }
  }

  /** Every key added while filling part of a row is the text of one of its
      cells. */
  lemma {:induction false} FillColsKeys(base: map<string, string>, row: int, fromCol: int, toCol: int, v: string, k: string)
    requires 1 <= fromCol && row >= 1
    requires k in FillCols(base, row, fromCol, toCol, v)
    ensures k in base || exists c :: fromCol <= c <= toCol && k == CoordString(c, row)
    decreases toCol - fromCol
  {
    if toCol >= fromCol && k != CoordString(toCol, row) {
      FillColsKeys(base, row, fromCol, toCol - 1, v, k);
    }
  }

  lemma {:induction false} FillRowsAt(base: map<string, string>, b: Rect, toRow: int, v: string, r: int, c: int)
    requires ValidRect(b) && 1 <= c <= MaxColumn && r >= 1
    ensures var m := FillRows(base, b, toRow, v);
      var inside := b.minRow <= r <= toRow && b.minCol <= c <= b.maxCol;
      && (CoordString(c, r) in m <==> inside || CoordString(c, r) in base)
      && (inside ==> m[CoordString(c, r)] == v)
      && (!inside && CoordString(c, r) in base ==> m[CoordString(c, r)] == base[CoordString(c, r)])
    decreases toRow - b.minRow
  {
    if toRow >= b.minRow {
      FillRowsAt(base, b, toRow - 1, v, r, c);
      FillColsAt(FillRows(base, b, toRow - 1, v), toRow, b.minCol, b.maxCol, v, r, c);
    }
  }

  lemma {:induction false} FillRowsKeys(base: map<string, string>, b: Rect, toRow: int, v: string, k: string)
    requires ValidRect(b)
    requires k in FillRows(base, b, toRow, v)
    ensures k in base || exists r, c :: b.minRow <= r <= toRow && b.minCol <= c <= b.maxCol && k == CoordString(c, r)
    decreases toRow - b.minRow
  {
    if toRow >= b.minRow {
      var prev := FillRows(base, b, toRow - 1, v);
      FillColsKeys(prev, toRow, b.minCol, b.maxCol, v, k);
      if k in prev {
        FillRowsKeys(base, b, toRow - 1, v, k);
      }
    }
  }

  /** After the fill, a cell of the block maps to `v` and any other cell keeps
      its entry. */
  lemma FillAt(base: map<string, string>, b: Rect, v: string, r: int, c: int)
    requires ValidRect(b) && 1 <= c <= MaxColumn && r >= 1
    ensures var m := Fill(base, b, v);
      && (CoordString(c, r) in m <==> InRect((r, c), b) || CoordString(c, r) in base)
      && (InRect((r, c), b) ==> m[CoordString(c, r)] == v)
      && (!InRect((r, c), b) && CoordString(c, r) in base ==> m[CoordString(c, r)] == base[CoordString(c, r)])
  {
    FillRowsAt(base, b, b.maxRow, v, r, c);
  }

  /** The fill adds no key but the texts of the block's cells. */
  lemma FillKeys(base: map<string, string>, b: Rect, v: string, k: string)
    requires ValidRect(b) && k in Fill(base, b, v)
    ensures k in base || exists r, c :: InRect((r, c), b) && k == CoordString(c, r)
  {
    FillRowsKeys(base, b, b.maxRow, v, k);
  }

  /** `for row_idx in range(...): for col_idx in range(...):
      merged_cell_map[coord_str] = merged_range_str`. */
  method FillIntersection(cellMap: map<string, string>, b: Rect, rangeText: string) returns (res: map<string, string>)
    requires ValidRect(b)
    ensures res == Fill(cellMap, b, rangeText)
  {
    res := cellMap;
    var row := b.minRow;
    while row <= b.maxRow
      invariant b.minRow <= row <= b.maxRow + 1
      invariant res == FillRows(cellMap, b, row - 1, rangeText)
    {
      ghost var rowStart := res;
      var col := b.minCol;
      while col <= b.maxCol
        invariant b.minCol <= col <= b.maxCol + 1
        invariant res == FillCols(rowStart, row, b.minCol, col - 1, rangeText)
      {
        res := res[CoordString(col, row) := rangeText];
        col := col + 1;
      }
      row := row + 1;
    }
  }

  // ---------------------------------------------------------------- the target block

  /** `effective_cell_range or (str(sheet.dimensions) if sheet.dimensions
      else None)`: empty texts count as missing. */
  function PlannedRange<V>(sheet: Sheet<V>, effective: Option<string>): (r: Option<string>)
    ensures r.Some? ==> r.value != []
  {
    if effective.Some? && effective.value != [] then effective
    else if sheet.dimensions != [] then Some(sheet.dimensions)
    else None
  }

  /** The target block: the text split at its first colon (or the same cell
      twice), `$` removed from each end, and the rows and columns of the ends
      taken in order. */
  function TargetBounds(planned: string): (r: Result<Rect, CacheError>)
    ensures r.Ok? ==> ValidRect(r.value)
  {
    var ends := if ':' in planned then SplitFirst(planned, ':') else (planned, planned);
    BlockOfEnds(ends.0, ends.1)
  }

  /** The block spanned by two cells, `$` removed from each. */
  function BlockOfEnds(startText: string, endText: string): (r: Result<Rect, CacheError>)
    ensures r.Ok? ==> ValidRect(r.value)
  {
    match CoordinateFromString(RemoveChar(startText, '$'))
    case None => Err(BadTarget)
    case Some(a) =>
      match CoordinateFromString(RemoveChar(endText, '$'))
      case None => Err(BadTarget)
      case Some(b) => Ok(Span(a, b))
  }

  /** The rows and columns of two coordinates, each taken in order. */
  function Span(a: Coord, b: Coord): (r: Rect)
    requires ValidColumnName(a.column) && ValidColumnName(b.column) && a.row >= 1 && b.row >= 1
    ensures ValidRect(r)
  {
    var ca := ColIdx(a);
    var cb := ColIdx(b);
    Rect(Min(a.row, b.row), Max(a.row, b.row), Min(ca, cb), Max(ca, cb))
  }

  lemma SplitFirstOfJoin(a: string, b: string)
    requires ':' !in a
    ensures ':' in a + ":" + b && SplitFirst(a + ":" + b, ':') == (a, b)
  {
    IndexOfAfterFree(a, ':', b);
    var s := a + ":" + b;
    assert s == a + [':'] + b;
    assert s[..|a|] == a;
    assert s[|a| + 1..] == b;
  }

  /** The order of the two ends does not matter. */
  lemma TargetSymmetric(a: string, b: string)
    requires ':' !in a && ':' !in b
    ensures TargetBounds(a + ":" + b) == TargetBounds(b + ":" + a)
  {
    SplitFirstOfJoin(a, b);
    SplitFirstOfJoin(b, a);
    BlockOfEndsSymmetric(a, b);
  }

  lemma BlockOfEndsSymmetric(a: string, b: string)
    ensures BlockOfEnds(a, b) == BlockOfEnds(b, a)
  {
    var x := CoordinateFromString(RemoveChar(a, '$'));
    var y := CoordinateFromString(RemoveChar(b, '$'));
    if x.Some? && y.Some? {
      assert Span(x.value, y.value) == Span(y.value, x.value);
    }
  }

  lemma NoMarksInCoord(col: int, row: int)
    requires 1 <= col && row >= 1
    ensures ':' !in CoordString(col, row) && '$' !in CoordString(col, row)
  {
    var l := ColumnLetter(col);
    var s := CoordString(col, row);
    forall i | 0 <= i < |s| ensures s[i] != ':' && s[i] != '$' {
      if i < |l| {
        assert s[i] == l[i];
      } else {
        assert s[i] == NatToString(row)[i - |l|];
      }
    }
  }

  /** A target written as two cells is the block they span, whichever comes
      first. */
  lemma TargetOfCells(c1: int, r1: int, c2: int, r2: int)
    requires 1 <= c1 <= MaxColumn && r1 >= 1 && 1 <= c2 <= MaxColumn && r2 >= 1
    ensures TargetBounds(CoordString(c1, r1) + ":" + CoordString(c2, r2))
      == Ok(Rect(Min(r1, r2), Max(r1, r2), Min(c1, c2), Max(c1, c2)))
  {
    var a := CoordString(c1, r1);
    var b := CoordString(c2, r2);
    NoMarksInCoord(c1, r1);
    NoMarksInCoord(c2, r2);
    SplitFirstOfJoin(a, b);
    RemoveAbsent(a, '$');
    RemoveAbsent(b, '$');
    ParseCoordString(c1, r1);
    ParseCoordString(c2, r2);
  }

  /** A target written as one cell is that cell. */
  lemma TargetOfCell(c: int, r: int)
    requires 1 <= c <= MaxColumn && r >= 1
    ensures TargetBounds(CoordString(c, r)) == Ok(Rect(r, r, c, c))
  {
    NoMarksInCoord(c, r);
    RemoveAbsent(CoordString(c, r), '$');
    ParseCoordString(c, r);
  }

  // ---------------------------------------------------------------- one merged range

  /** The part of merge `m` inside target `t` (`inter_*`). */
  function Intersect(m: Rect, t: Rect): (i: Rect)
    ensures m.minRow <= i.minRow && t.minRow <= i.minRow && i.maxRow <= m.maxRow && i.maxRow <= t.maxRow
    ensures m.minCol <= i.minCol && t.minCol <= i.minCol && i.maxCol <= m.maxCol && i.maxCol <= t.maxCol
  {
    Rect(Max(m.minRow, t.minRow), Min(m.maxRow, t.maxRow), Max(m.minCol, t.minCol), Min(m.maxCol, t.maxCol))
  }

  predicate Meets(m: Rect, t: Rect) {
    var i := Intersect(m, t);
    i.minRow <= i.maxRow && i.minCol <= i.maxCol
  }

  lemma InIntersect(p: Pos, m: Rect, t: Rect)
    ensures InRect(p, Intersect(m, t)) <==> InRect(p, m) && InRect(p, t)
    ensures InRect(p, m) && InRect(p, t) ==> Meets(m, t)
  {
  }

  /** `str(merged_range).split(":")[0]`: the top-left cell of the range. */
  lemma RangeStartIsTopLeft(m: Rect)
    requires ValidRect(m)
    ensures Split(RangeString(m), ':')[0] == CoordString(m.minCol, m.minRow)
  {
    var a := CoordString(m.minCol, m.minRow);
    NoMarksInCoord(m.minCol, m.minRow);
    if !(m.minRow == m.maxRow && m.minCol == m.maxCol) {
      var b := CoordString(m.maxCol, m.maxRow);
      assert RangeString(m) == a + [':'] + b;
      SplitCons(a, ':', b);
    }
  }

  /** The anchor of a merge: the top-left cell when its value is non-null,
      otherwise what the search finds. */
  ghost function MergeAnchor<V, S>(sheet: Sheet<V>, m: Rect, ser: Option<V> -> Option<S>): (a: Anchor<S>)
    requires ValidRect(m)
    ensures a.value.None? <==> ser(ValueAt(sheet, (m.minRow, m.minCol))).None? && Candidates(sheet, m, ser) == {}
  {
    var top := ser(ValueAt(sheet, (m.minRow, m.minCol)));
    if top.Some? then Anchor(CoordString(m.minCol, m.minRow), top)
    else SearchAnchor(sheet, m, ser)
  }

  /** The three results while they are being built. */
  datatype Acc<S> = Acc(cellMap: map<string, string>, anchorMap: map<string, Option<S>>, ranges: seq<MergedRange<S>>)

  /** One pass of the loop over merged ranges. */
  ghost function Step<V, S>(acc: Acc<S>, sheet: Sheet<V>, m: Rect, t: Rect, ser: Option<V> -> Option<S>): Acc<S>
    requires ValidRect(m)
  {
    if !Meets(m, t) then acc
    else
      var rs := RangeString(m);
      var a := MergeAnchor(sheet, m, ser);
      Acc(Fill(acc.cellMap, Intersect(m, t), rs), acc.anchorMap[rs := a.value], acc.ranges + [MergedRange(rs, a)])
  }

  /** The results after the merged ranges `ms`, in order. */
  ghost function Fold<V, S>(sheet: Sheet<V>, ms: seq<Rect>, t: Rect, ser: Option<V> -> Option<S>): Acc<S>
    requires AllValid(ms)
  {
    if |ms| == 0 then Acc(map[], map[], [])
    else Step(Fold(sheet, ms[..|ms| - 1], t, ser), sheet, ms[|ms| - 1], t, ser)
  }

  /** What `build_merged_cell_cache` returns. */
  ghost function CacheSpec<V, S>(sheet: Sheet<V>, effective: Option<string>, ser: Option<V> -> Option<S>): (r: Result<Cache<S>, CacheError>)
    requires WellFormed(sheet)
    ensures r.Ok? ==> (r.value.ranges == [] <==> r.value.cellMap.None?)
    ensures r.Ok? ==> (r.value.cellMap.None? <==> r.value.anchorMap.None?)
  {
    var planned := PlannedRange(sheet, effective);
    if |sheet.merges| == 0 || planned.None? then Ok(Cache(None, None, []))
    else
      match TargetBounds(planned.value)
      case Err(e) => Err(e)
      case Ok(t) =>
        var acc := Fold(sheet, sheet.merges, t, ser);
        if |acc.ranges| == 0 then Ok(Cache(None, None, []))
        else Ok(Cache(Some(acc.cellMap), Some(acc.anchorMap), acc.ranges))
  }

  /** The anchor of one merge (`anchor_coord`, `anchor_value`): its first
      cell `rangeStart` when that value is non-null, else the search. */
  method ResolveAnchor<V, S>(sheet: Sheet<V>, m: Rect, rangeStart: string, ser: Option<V> -> Option<S>) returns (a: Anchor<S>)
    requires ValidRect(m) && rangeStart == Split(RangeString(m), ':')[0]
    ensures a == MergeAnchor(sheet, m, ser)
  {
    RangeStartIsTopLeft(m);
    var anchorCoord := rangeStart;
    var anchorValue := ser(ValueAt(sheet, (m.minRow, m.minCol)));
    if anchorValue.None? {
      var found := FindAnchorValueInMerge(sheet, m, ser);
      anchorCoord, anchorValue := found.coordinate, found.value;
    }
    a := Anchor(anchorCoord, anchorValue);
  }

  /** `build_merged_cell_cache`: the target block, then one pass per merged
      range; no entry at all gives `(None, None, [])`. */
  method BuildMergedCellCache<V, S>(sheet: Sheet<V>, effective: Option<string>, ser: Option<V> -> Option<S>)
    returns (r: Result<Cache<S>, CacheError>)
    requires WellFormed(sheet)
    ensures r == CacheSpec(sheet, effective, ser)
  {
    var planned := PlannedRange(sheet, effective);
    if |sheet.merges| == 0 || planned.None? {
      return Ok(Cache(None, None, []));
    }
    var t :- TargetBounds(planned.value);
    var acc := VisitMerges(sheet, t, ser);
    if |acc.ranges| == 0 {
      return Ok(Cache(None, None, []));
    }
    return Ok(Cache(Some(acc.cellMap), Some(acc.anchorMap), acc.ranges));
  }

  /** The loop over merged ranges (`for merged_range in
      sheet.merged_cells.ranges`), filling the three results in place. */
  method VisitMerges<V, S>(sheet: Sheet<V>, t: Rect, ser: Option<V> -> Option<S>) returns (acc: Acc<S>)
    requires AllValid(sheet.merges)
    ensures acc == Fold(sheet, sheet.merges, t, ser)
  {
    var cellMap: map<string, string> := map[];
    var anchorMap: map<string, Option<S>> := map[];
    var ranges: seq<MergedRange<S>> := [];
    var i := 0;
    while i < |sheet.merges|
      invariant 0 <= i <= |sheet.merges|
      invariant Acc(cellMap, anchorMap, ranges) == Fold(sheet, sheet.merges[..i], t, ser)
    {
      FoldNext(sheet, sheet.merges, i, t, ser);
      ghost var before := Acc(cellMap, anchorMap, ranges);
      var m := sheet.merges[i];
      var rangeText := RangeString(m);
      var rangeStart := Split(rangeText, ':')[0];
      var inter := Intersect(m, t);
      if inter.minRow > inter.maxRow || inter.minCol > inter.maxCol {
        i := i + 1;
        continue;
      }
      var anchor := ResolveAnchor(sheet, m, rangeStart, ser);
      cellMap := FillIntersection(cellMap, inter, rangeText);
      anchorMap := anchorMap[rangeText := anchor.value];
      ranges := ranges + [MergedRange(rangeText, anchor)];
      assert Acc(cellMap, anchorMap, ranges) == Step(before, sheet, m, t, ser);
      i := i + 1;
    }
    assert sheet.merges[..i] == sheet.merges;
    acc := Acc(cellMap, anchorMap, ranges);
  }

  /** The results after one more merged range are one more step. */
  lemma FoldNext<V, S>(sheet: Sheet<V>, ms: seq<Rect>, i: int, t: Rect, ser: Option<V> -> Option<S>)
    requires AllValid(ms) && 0 <= i < |ms|
    ensures AllValid(ms[..i]) && AllValid(ms[..i + 1]) && ValidRect(ms[i])
    ensures Fold(sheet, ms[..i + 1], t, ser) == Step(Fold(sheet, ms[..i], t, ser), sheet, ms[i], t, ser)
  {
    AllValidPrefix(ms, i);
    AllValidPrefix(ms, i + 1);
    assert ms[..i + 1][..i] == ms[..i];
    assert ms[..i + 1][i] == ms[i];
  }

  // ---------------------------------------------------------------- properties of the cache

  /** Nothing is cached without merged ranges, without any range to look at,
      or when no merged range meets the target. */
  lemma CacheEmpty<V, S>(sheet: Sheet<V>, effective: Option<string>, ser: Option<V> -> Option<S>)
    requires WellFormed(sheet)
    ensures |sheet.merges| == 0 ==> CacheSpec(sheet, effective, ser) == Ok(Cache(None, None, []))
    ensures (effective.None? || effective.value == []) && sheet.dimensions == []
      ==> CacheSpec(sheet, effective, ser) == Ok(Cache(None, None, []))
  {
  }

  lemma CacheNoneMeets<V, S>(sheet: Sheet<V>, effective: Option<string>, ser: Option<V> -> Option<S>, t: Rect)
    requires WellFormed(sheet)
    requires PlannedRange(sheet, effective).Some? && TargetBounds(PlannedRange(sheet, effective).value) == Ok(t)
    requires forall i :: 0 <= i < |sheet.merges| ==> !Meets(sheet.merges[i], t)
    ensures CacheSpec(sheet, effective, ser) == Ok(Cache(None, None, []))
  {
    FoldRangesEmpty(sheet, sheet.merges, t, ser);
  }

  /** Some merged range meeting the target gives all three results. */
  lemma CacheSomeMeets<V, S>(sheet: Sheet<V>, effective: Option<string>, ser: Option<V> -> Option<S>, t: Rect, i: int)
    requires WellFormed(sheet)
    requires PlannedRange(sheet, effective).Some? && TargetBounds(PlannedRange(sheet, effective).value) == Ok(t)
    requires 0 <= i < |sheet.merges| && Meets(sheet.merges[i], t)
    ensures var r := CacheSpec(sheet, effective, ser);
      r.Ok? && r.value.cellMap.Some? && r.value.anchorMap.Some? && |r.value.ranges| > 0
  {
    FoldRangesEmpty(sheet, sheet.merges, t, ser);
  }

  lemma AllValidPrefix(ms: seq<Rect>, n: int)
    requires AllValid(ms) && 0 <= n <= |ms|
    ensures AllValid(ms[..n])
  {
    forall i | 0 <= i < n ensures ValidRect(ms[..n][i]) {
      assert ms[..n][i] == ms[i];
    }
  }

  /** The list of merged ranges is empty exactly when no merged range meets
      the target. */
  lemma {:induction false} FoldRangesEmpty<V, S>(sheet: Sheet<V>, ms: seq<Rect>, t: Rect, ser: Option<V> -> Option<S>)
    requires AllValid(ms)
    ensures |Fold(sheet, ms, t, ser).ranges| == 0 <==> forall i :: 0 <= i < |ms| ==> !Meets(ms[i], t)
  {
    if |ms| > 0 {
      var init := ms[..|ms| - 1];
      AllValidPrefix(ms, |ms| - 1);
      FoldRangesEmpty(sheet, init, t, ser);
      assert forall i :: 0 <= i < |init| ==> init[i] == ms[i];
    }
  }

  /** A cell has an entry in the coordinate map exactly when it lies in the
      target and in some merged range. */
  lemma {:induction false} CellMapKeys<V, S>(sheet: Sheet<V>, ms: seq<Rect>, t: Rect, ser: Option<V> -> Option<S>, r: int, c: int)
    requires AllValid(ms) && 1 <= c <= MaxColumn && r >= 1
    ensures CoordString(c, r) in Fold(sheet, ms, t, ser).cellMap
      <==> InRect((r, c), t) && exists i :: 0 <= i < |ms| && InRect((r, c), ms[i])
  {
    if |ms| > 0 {
      var init := ms[..|ms| - 1];
      var m := ms[|ms| - 1];
      AllValidPrefix(ms, |ms| - 1);
      CellMapKeys(sheet, init, t, ser, r, c);
      InIntersect((r, c), m, t);
      if Meets(m, t) {
        FillAt(Fold(sheet, init, t, ser).cellMap, Intersect(m, t), RangeString(m), r, c);
      }
      assert forall i :: 0 <= i < |init| ==> init[i] == ms[i];
      if InRect((r, c), t) && exists i :: 0 <= i < |ms| && InRect((r, c), ms[i]) {
        var i :| 0 <= i < |ms| && InRect((r, c), ms[i]);
        if i < |init| {
          assert InRect((r, c), init[i]);
        }
      }
    }
  }

  /** Every key of the coordinate map names a cell of the target: nothing
      outside the returned block is cached. */
  lemma {:induction false} CellMapInTarget<V, S>(sheet: Sheet<V>, ms: seq<Rect>, t: Rect, ser: Option<V> -> Option<S>, k: string)
    requires AllValid(ms) && k in Fold(sheet, ms, t, ser).cellMap
    ensures exists r, c :: 1 <= c && r >= 1 && InRect((r, c), t) && k == CoordString(c, r)
  {
    var init := ms[..|ms| - 1];
    var m := ms[|ms| - 1];
    AllValidPrefix(ms, |ms| - 1);
    var prev := Fold(sheet, init, t, ser).cellMap;
    if Meets(m, t) {
      FillKeys(prev, Intersect(m, t), RangeString(m), k);
      if k !in prev {
        var r, c :| InRect((r, c), Intersect(m, t)) && k == CoordString(c, r);
        InIntersect((r, c), m, t);
        return;
      }
    }
    CellMapInTarget(sheet, init, t, ser, k);
  }

  /** A cached cell maps to the text of the last merged range that holds
      it. */
  lemma {:induction false} CellMapValue<V, S>(sheet: Sheet<V>, ms: seq<Rect>, t: Rect, ser: Option<V> -> Option<S>, r: int, c: int, j: int)
    requires AllValid(ms) && 1 <= c <= MaxColumn && r >= 1 && InRect((r, c), t)
    requires 0 <= j < |ms| && InRect((r, c), ms[j])
    requires forall i :: j < i < |ms| ==> !InRect((r, c), ms[i])
    ensures CoordString(c, r) in Fold(sheet, ms, t, ser).cellMap
    ensures Fold(sheet, ms, t, ser).cellMap[CoordString(c, r)] == RangeString(ms[j])
  {
    var init := ms[..|ms| - 1];
    var m := ms[|ms| - 1];
    AllValidPrefix(ms, |ms| - 1);
    var prev := Fold(sheet, init, t, ser).cellMap;
    InIntersect((r, c), m, t);
    if j < |ms| - 1 {
      assert forall i :: 0 <= i < |init| ==> init[i] == ms[i];
      CellMapValue(sheet, init, t, ser, r, c, j);
    }
    if Meets(m, t) {
      FillAt(prev, Intersect(m, t), RangeString(m), r, c);
    }
  }

  /** The merged ranges that meet the target, in order. */
  ghost function Meeting(ms: seq<Rect>, t: Rect): (r: seq<Rect>)
    ensures forall x :: x in r <==> x in ms && Meets(x, t)
  {
    if |ms| == 0 then []
    else
      var init := ms[..|ms| - 1];
      assert ms == init + [ms[|ms| - 1]];
      Meeting(init, t) + (if Meets(ms[|ms| - 1], t) then [ms[|ms| - 1]] else [])
  }

  /** The list holds one entry per merged range that meets the target, in
      order, each with its range text and anchor. */
  lemma {:induction false} RangesOfMeeting<V, S>(sheet: Sheet<V>, ms: seq<Rect>, t: Rect, ser: Option<V> -> Option<S>)
    requires AllValid(ms)
    ensures var rs := Fold(sheet, ms, t, ser).ranges;
      var mm := Meeting(ms, t);
      && |rs| == |mm|
      && forall k :: 0 <= k < |rs| ==>
           (ValidRect(mm[k]) && rs[k] == MergedRange(RangeString(mm[k]), MergeAnchor(sheet, mm[k], ser)))
  {
    if |ms| > 0 {
      var init := ms[..|ms| - 1];
      AllValidPrefix(ms, |ms| - 1);
      RangesOfMeeting(sheet, init, t, ser);
    }
  }

  /** The anchor map holds the range text of every entry and no other key. */
  lemma {:induction false} AnchorMapKeys<V, S>(sheet: Sheet<V>, ms: seq<Rect>, t: Rect, ser: Option<V> -> Option<S>, s: string)
    requires AllValid(ms)
    ensures var acc := Fold(sheet, ms, t, ser);
      s in acc.anchorMap <==> exists k :: 0 <= k < |acc.ranges| && acc.ranges[k].range == s
  {
    if |ms| > 0 {
      var init := ms[..|ms| - 1];
      var m := ms[|ms| - 1];
      AllValidPrefix(ms, |ms| - 1);
      AnchorMapKeys(sheet, init, t, ser, s);
      var prev := Fold(sheet, init, t, ser);
      var acc := Fold(sheet, ms, t, ser);
      if Meets(m, t) {
        assert acc.ranges == prev.ranges + [acc.ranges[|prev.ranges|]];
        if s in acc.anchorMap && s != RangeString(m) {
          var k :| 0 <= k < |prev.ranges| && prev.ranges[k].range == s;
          assert acc.ranges[k] == prev.ranges[k];
        }
        if exists k :: 0 <= k < |acc.ranges| && acc.ranges[k].range == s {
          var k :| 0 <= k < |acc.ranges| && acc.ranges[k].range == s;
          if k < |prev.ranges| {
            assert prev.ranges[k] == acc.ranges[k];
          }
        }
      }
    }
  }

  /** Every entry's anchor value is the one recorded under its range text. */
  lemma {:induction false} AnchorMapAgrees<V, S>(sheet: Sheet<V>, ms: seq<Rect>, t: Rect, ser: Option<V> -> Option<S>)
    requires AllValid(ms) && Distinct(ms)
    ensures var acc := Fold(sheet, ms, t, ser);
      forall k :: 0 <= k < |acc.ranges| ==>
        acc.ranges[k].range in acc.anchorMap && acc.anchorMap[acc.ranges[k].range] == acc.ranges[k].anchor.value
  {
    if |ms| > 0 {
      var init := ms[..|ms| - 1];
      var m := ms[|ms| - 1];
      AllValidPrefix(ms, |ms| - 1);
      assert Distinct(init) by {
        assert forall i :: 0 <= i < |init| ==> init[i] == ms[i];
      }
      AnchorMapAgrees(sheet, init, t, ser);
      if Meets(m, t) {
        var prev := Fold(sheet, init, t, ser);
        RangesOfMeeting(sheet, init, t, ser);
        var mm := Meeting(init, t);
        forall k | 0 <= k < |prev.ranges| ensures prev.ranges[k].range != RangeString(m) {
          assert mm[k] in mm;
          var i :| 0 <= i < |init| && init[i] == mm[k];
          assert ms[i] == mm[k];
          if RangeString(mm[k]) == RangeString(m) {
            RangeStringInjective(mm[k], m);
          }
        }
      }
    }
  }

  /** A merged range that does not meet the target changes nothing, wherever
      it is listed. */
  lemma {:induction false} NonMeetingIgnored<V, S>(sheet: Sheet<V>, before: seq<Rect>, m: Rect, after: seq<Rect>, t: Rect, ser: Option<V> -> Option<S>)
    requires AllValid(before + [m] + after) && !Meets(m, t)
    ensures AllValid(before + after)
    ensures Fold(sheet, before + [m] + after, t, ser) == Fold(sheet, before + after, t, ser)
  {
    var all := before + [m] + after;
    var rest := before + after;
    forall i | 0 <= i < |rest| ensures ValidRect(rest[i]) {
      if i < |before| {
        assert rest[i] == all[i];
      } else {
        assert rest[i] == all[i + 1];
      }
    }
    if |after| == 0 {
      assert all[..|all| - 1] == before;
      assert rest == before;
    } else {
      var last := after[|after| - 1];
      var init := after[..|after| - 1];
      assert all[..|all| - 1] == before + [m] + init;
      assert rest[..|rest| - 1] == before + init;
      assert all[|all| - 1] == last && rest[|rest| - 1] == last;
      AllValidPrefix(all, |all| - 1);
      NonMeetingIgnored(sheet, before, m, init, t, ser);
    }
  }

  // ---------------------------------------------------------------- properties of the anchor

  /** When a cell that does not exist serializes to null, the `_cells` scan
      and the scan of every cell have the same candidates. */
  lemma CandidatesAgree<V, S>(sheet: Sheet<V>, m: Rect, ser: Option<V> -> Option<S>)
    requires ser(None) == None
    ensures IndexedCandidates(sheet, m, ser) == ScanCandidates(sheet, m, ser)
  {
    var a := IndexedCandidates(sheet, m, ser);
    var b := ScanCandidates(sheet, m, ser);
    forall p | p in a ensures p in b {
      assert ValueAt(sheet, (p.0, p.1)) == sheet.cells[p];
    }
    forall p | p in b ensures p in a {
      assert p in sheet.cells;
    }
  }

  /** The indexed scan and the fallback choose the same anchor coordinate
      and value. */
  lemma ScansAgree<V, S>(sheet: Sheet<V>, m: Rect, ser: Option<V> -> Option<S>)
    requires ValidRect(m) && ser(None) == None
    ensures SearchAnchor(sheet.(indexed := true), m, ser) == SearchAnchor(sheet.(indexed := false), m, ser)
  {
    CandidatesAgree(sheet.(indexed := true), m, ser);
    assert IndexedCandidates(sheet.(indexed := true), m, ser) == ScanCandidates(sheet.(indexed := false), m, ser);
  }

  lemma ScanMember<V, S>(sheet: Sheet<V>, m: Rect, ser: Option<V> -> Option<S>, r: int, c: int)
    ensures (r, c) in ScanCandidates(sheet, m, ser) <==> InRect((r, c), m) && ser(ValueAt(sheet, (r, c))).Some?
  {
    if InRect((r, c), m) && ser(ValueAt(sheet, (r, c))).Some? {
      assert (r, c) in ScanCandidates(sheet, m, ser);
    }
  }

  /** The anchor of a merge is its first cell, in row-major order, with a
      non-null value, and the top-left cell with a null value when there is
      none. With the `_cells` index this needs a missing cell to serialize to
      null. */
  lemma AnchorIsFirstNonNull<V, S>(sheet: Sheet<V>, m: Rect, ser: Option<V> -> Option<S>)
    requires ValidRect(m) && (sheet.indexed ==> ser(None) == None)
    ensures var a := MergeAnchor(sheet, m, ser);
      && (a.value.None? <==> forall r, c :: InRect((r, c), m) ==> ser(ValueAt(sheet, (r, c))).None?)
      && (a.value.None? ==> a.coordinate == CoordString(m.minCol, m.minRow))
      && (a.value.Some? ==>
            exists r, c ::
              (&& InRect((r, c), m)
               && a.coordinate == CoordString(c, r) && a.value == ser(ValueAt(sheet, (r, c)))
               && forall r', c' :: InRect((r', c'), m) && Before((r', c'), (r, c)) ==> ser(ValueAt(sheet, (r', c'))).None?))
  {
    var a := MergeAnchor(sheet, m, ser);
    var cs := ScanCandidates(sheet, m, ser);
    if sheet.indexed {
      CandidatesAgree(sheet, m, ser);
    }
    assert Candidates(sheet, m, ser) == cs;
    var top := ser(ValueAt(sheet, (m.minRow, m.minCol)));
    if top.Some? {
      ScanMember(sheet, m, ser, m.minRow, m.minCol);
    } else if cs == {} {
      forall r, c | InRect((r, c), m) ensures ser(ValueAt(sheet, (r, c))).None? {
        ScanMember(sheet, m, ser, r, c);
      }
    } else {
      var p := Least(cs);
      forall r', c' | InRect((r', c'), m) && Before((r', c'), p) ensures ser(ValueAt(sheet, (r', c'))).None? {
        ScanMember(sheet, m, ser, r', c');
      }
      assert InRect((p.0, p.1), m);
    }
  }
}
