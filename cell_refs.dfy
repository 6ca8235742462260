/** A1-style cell references, as provided to the Excel helpers by openpyxl's
    `column_index_from_string`, `get_column_letter`, `coordinate_from_string`
    and the text form of a merged range. Columns are numbered in bijective
    base 26 (A = 1, Z = 26, AA = 27, ..., ZZZ = 18278) and rows from 1. */
module CellRefs {
  import opened Fallible
  import opened Text

  /** The largest column the helpers accept: "ZZZ". */
  const MaxColumn: int := 18278

  // ---------------------------------------------------------------- column letters

  function LetterValue(c: char): (d: int)
    requires IsUpperLetter(c)
    ensures 1 <= d <= 26
  {
    c as int - 'A' as int + 1
  }

  function LetterOf(d: int): (c: char)
    requires 1 <= d <= 26
    ensures IsUpperLetter(c) && LetterValue(c) == d
  {
    ('A' as int + d - 1) as char
  }

  /** The column number that upper-case letters denote (bijective base 26). */
  function ColumnIndex(s: string): nat
    requires IsUpperLetters(s)
  {
    if |s| == 0 then 0 else ColumnIndex(s[..|s| - 1]) * 26 + LetterValue(s[|s| - 1])
  }

  /** The letters of column `n` (`get_column_letter` without its upper limit). */
  function ColumnLetter(n: int): (s: string)
    requires n >= 1
    ensures |s| >= 1 && IsUpperLetters(s) && IsAlpha(s)
  {
    if n <= 26 then [LetterOf(n)]
    else ColumnLetter((n - 1) / 26) + [LetterOf((n - 1) % 26 + 1)]
  }

  /** Reading back the letters of column `n` gives `n`. */
  lemma {:induction false} ColumnIndexOfLetter(n: int)
    requires n >= 1
    ensures ColumnIndex(ColumnLetter(n)) == n
  {
    if n > 26 {
      var q := (n - 1) / 26;
      ColumnIndexOfLetter(q);
      var s := ColumnLetter(n);
      assert s[..|s| - 1] == ColumnLetter(q);
    }
  }

  /** Every non-empty run of upper-case letters is the name of exactly one
      column: writing its index back gives the same letters. */
  lemma {:induction false} ColumnLetterOfIndex(s: string)
    requires |s| >= 1 && IsUpperLetters(s)
    ensures ColumnIndex(s) >= 1 && ColumnLetter(ColumnIndex(s)) == s
  {
    var p := s[..|s| - 1];
    var v := LetterValue(s[|s| - 1]);
    if |p| == 0 {
      assert s == [s[0]];
    } else {
      ColumnLetterOfIndex(p);
      var k := ColumnIndex(p);
      var n := k * 26 + v;
      assert n - 1 == k * 26 + (v - 1);
      assert (n - 1) / 26 == k && (n - 1) % 26 == v - 1;
      assert s == p + [s[|s| - 1]];
    }
  }

  /** Columns up to ZZZ have at most three letters. */
  lemma ColumnLetterLength(n: int)
    requires 1 <= n <= MaxColumn
    ensures |ColumnLetter(n)| <= 3
  {
    if n > 26 {
      var q := (n - 1) / 26;
      assert q <= 702;
      if q > 26 {
        assert (q - 1) / 26 <= 26;
        assert |ColumnLetter((q - 1) / 26)| == 1;
        assert |ColumnLetter(q)| == 2;
      } else {
        assert |ColumnLetter(q)| == 1;
      }
      assert |ColumnLetter(n)| == |ColumnLetter(q)| + 1;
    }
  }

  /** One to three letters name a column between A and ZZZ. */
  lemma ColumnIndexBound(s: string)
    requires 1 <= |s| <= 3 && IsUpperLetters(s)
    ensures 1 <= ColumnIndex(s) <= MaxColumn
  {
    var p := s[..|s| - 1];
    if |p| >= 1 {
      var pp := p[..|p| - 1];
      if |pp| >= 1 {
        assert pp[..|pp| - 1] == [];
        assert ColumnIndex(pp) <= 26;
      }
      assert ColumnIndex(p) <= 702;
    }
  }

  /** openpyxl's `column_index_from_string`: case-insensitive, one to three
      letters; anything else raises `ValueError` (here `None`). */
  function ColumnIndexFromString(s: string): (r: Option<int>)
    ensures r.Some? <==> IsAlpha(s) && |s| <= 3
    ensures r.Some? ==> 1 <= r.value <= MaxColumn
  {
    if IsAlpha(s) && |s| <= 3 then
      UpperOfAlpha(s);
      ColumnIndexBound(Upper(s));
      Some(ColumnIndex(Upper(s)))
    else None
  }

  /** The column a name denotes is written back as that name in upper case. */
  lemma ColumnIndexFromStringLetters(s: string)
    requires IsAlpha(s) && |s| <= 3
    ensures ColumnLetter(ColumnIndexFromString(s).value) == Upper(s)
  {
    UpperOfAlpha(s);
    ColumnLetterOfIndex(Upper(s));
  }

  /** openpyxl's `get_column_letter`: defined for columns 1 to 18278 and
      raising `ValueError` (here `None`) otherwise. */
  function GetColumnLetter(n: int): (r: Option<string>)
    ensures r.Some? <==> 1 <= n <= MaxColumn
    ensures r.Some? ==> ColumnIndexFromString(r.value) == Some(n)
  {
    if 1 <= n <= MaxColumn then
      ColumnLetterLength(n);
      ColumnIndexOfLetter(n);
      UpperOfAlpha(ColumnLetter(n));
      assert Upper(ColumnLetter(n)) == ColumnLetter(n);
      Some(ColumnLetter(n))
    else None
  }

  // ---------------------------------------------------------------- coordinates

  /** A parsed coordinate: the column letters as written and the row. */
  datatype Coord = Coord(column: string, row: int)

  predicate ValidColumnName(col: string) {
    IsAlpha(col) && |col| <= 3
  }

  /** The length of the run of letters at the start of `s`. */
  function LetterRun(s: string): (k: nat)
    ensures k <= |s|
    ensures forall i :: 0 <= i < k ==> IsAsciiLetter(s[i])
    ensures k < |s| ==> !IsAsciiLetter(s[k])
  {
    if |s| > 0 && IsAsciiLetter(s[0]) then 1 + LetterRun(s[1..]) else 0
  }

  lemma {:induction false} LetterRunPrefix(l: string, d: string)
    requires forall i :: 0 <= i < |l| ==> IsAsciiLetter(l[i])
    requires |d| == 0 || !IsAsciiLetter(d[0])
    ensures LetterRun(l + d) == |l|
  {
    if |l| > 0 {
      LetterRunPrefix(l[1..], d);
      assert (l + d)[1..] == l[1..] + d;
    }
  }

  /** openpyxl's `coordinate_from_string`: the string, read here as ending
      where it ends, must match `[$]?([A-Za-z]{1,3})[$]?(\d+)` with ASCII
      digits, and row 0 is refused; both failures raise
      `CellCoordinatesException` (here `None`). The letters come back as
      written. Python's pattern also accepts one final newline and any
      Unicode decimal digit; the model accepts neither. */
  function CoordinateFromString(s: string): (c: Option<Coord>)
    ensures c.Some? ==> ValidColumnName(c.value.column) && c.value.row >= 1
  {
    var t := if |s| > 0 && s[0] == '$' then s[1..] else s;
    var k := LetterRun(t);
    if k == 0 || k > 3 then None
    else
      var rest := t[k..];
      var digits := if |rest| > 0 && rest[0] == '$' then rest[1..] else rest;
      if |digits| == 0 || !IsDigits(digits) || DigitsValue(digits) == 0 then None
      else Some(Coord(t[..k], DigitsValue(digits)))
  }

  /** The column number of a parsed coordinate. */
  function ColIdx(c: Coord): (n: int)
    requires ValidColumnName(c.column)
    ensures 1 <= n <= MaxColumn
  {
    ColumnIndexFromString(c.column).value
  }

  /** Letters followed by the decimal row parse back to those letters and row. */
  lemma ParseLettersRow(l: string, row: int)
    requires ValidColumnName(l) && row >= 1
    ensures CoordinateFromString(l + NatToString(row)) == Some(Coord(l, row))
  {
    var d := NatToString(row);
    var s := l + d;
    assert s[0] == l[0];
    LetterRunPrefix(l, d);
    assert s[|l|..] == d;
    assert s[..|l|] == l;
    DigitsValueOfNatToString(row);
  }

  /** Row 0 is refused: letters followed by `0` are not a cell. */
  lemma RowZeroRefused(l: string)
    requires ValidColumnName(l)
    ensures CoordinateFromString(l + "0") == None
  {
    var s := l + "0";
    assert s[0] == l[0];
    LetterRunPrefix(l, "0");
    assert s[|l|..] == "0";
    assert IsDigits("0") && "0"[..0] == "";
    assert DigitsValue("0") == 0;
  }

  /** The coordinate string `f"{get_column_letter(col)}{row}"`. */
  function CoordString(col: int, row: int): (s: string)
    requires 1 <= col && row >= 0
  {
    ColumnLetter(col) + NatToString(row)
  }

  /** A coordinate string parses back to its column and row. */
  lemma ParseCoordString(col: int, row: int)
    requires 1 <= col <= MaxColumn && row >= 1
    ensures CoordinateFromString(CoordString(col, row)) == Some(Coord(ColumnLetter(col), row))
    ensures ColIdx(Coord(ColumnLetter(col), row)) == col
  {
    ColumnLetterLength(col);
    ParseLettersRow(ColumnLetter(col), row);
    assert GetColumnLetter(col).Some?;
  }

  /** Distinct cells have distinct coordinate strings. */
  lemma CoordStringInjective(c1: int, r1: int, c2: int, r2: int)
    requires 1 <= c1 <= MaxColumn && r1 >= 1 && 1 <= c2 <= MaxColumn && r2 >= 1
    requires CoordString(c1, r1) == CoordString(c2, r2)
    ensures c1 == c2 && r1 == r2
  {
    ParseCoordString(c1, r1);
    ParseCoordString(c2, r2);
  }

  lemma NoColonInLettersRow(l: string, row: int)
    requires IsAlpha(l) && row >= 0
    ensures ':' !in l + NatToString(row)
  {
    var s := l + NatToString(row);
    forall i | 0 <= i < |s| ensures s[i] != ':' {
      if i < |l| { assert s[i] == l[i]; } else { assert s[i] == NatToString(row)[i - |l|]; }
    }
  }

  // ---------------------------------------------------------------- rectangles and range strings

  /** A block of cells given by its first and last row and column. A range
      string read back with `RangeBounds` keeps its start and end as written,
      so there `minRow > maxRow` marks a range written in reverse. */
  datatype Rect = Rect(minRow: int, maxRow: int, minCol: int, maxCol: int)

  /** A well-formed, non-empty block inside the columns the helpers accept. */
  predicate ValidRect(r: Rect) {
    1 <= r.minRow <= r.maxRow && 1 <= r.minCol <= r.maxCol <= MaxColumn
  }

  function Min(a: int, b: int): int { if a <= b then a else b }
  function Max(a: int, b: int): int { if a >= b then a else b }

  type Pos = (int, int)   // (row, column), compared lexicographically as Python tuples

  predicate InRect(p: Pos, r: Rect) {
    r.minRow <= p.0 <= r.maxRow && r.minCol <= p.1 <= r.maxCol
  }

  /** The text of a merged range, `str(CellRange)`: "A1" for a single cell,
      "A1:B2" otherwise. */
  function RangeString(r: Rect): (s: string)
    requires ValidRect(r)
    ensures var start := CoordString(r.minCol, r.minRow); |start| <= |s| && s[..|start|] == start
  {
    var start := CoordString(r.minCol, r.minRow);
    if r.minRow == r.maxRow && r.minCol == r.maxCol then start
    else start + ":" + CoordString(r.maxCol, r.maxRow)
  }

  /** The two ends of a range string as the range helpers take them apart:
      `s.split(":")` into exactly two cells, or the same cell twice when there
      is no colon; `None` when unpacking would raise. */
  function RangeEnds(s: string): Option<(string, string)> {
    if ':' in s then
      var parts := Split(s, ':');
      if |parts| == 2 then Some((parts[0], parts[1])) else None
    else Some((s, s))
  }

  /** A range string read back as the rows and columns of its two ends. */
  function RangeBounds(s: string): Option<Rect> {
    match RangeEnds(s)
    case None => None
    case Some(ends) =>
      match (CoordinateFromString(ends.0), CoordinateFromString(ends.1))
      case (Some(a), Some(b)) => Some(Rect(a.row, b.row, ColIdx(a), ColIdx(b)))
      case _ => None
  }

  /** Two colon-free cells joined by one colon come apart again. */
  lemma RangeEndsOfJoin(a: string, b: string)
    requires ':' !in a && ':' !in b
    ensures RangeEnds(a + ":" + b) == Some((a, b))
  {
    var s := a + ":" + b;
    assert s == a + [':'] + b;
    assert s[|a|] == ':';
    SplitCons(a, ':', b);
  }

  /** Two cells written as letters and rows, joined by a colon, read back as
      those rows and columns. */
  lemma BoundsOfTwoCells(l1: string, r1: int, l2: string, r2: int)
    requires ValidColumnName(l1) && ValidColumnName(l2) && r1 >= 1 && r2 >= 1
    ensures RangeBounds((l1 + NatToString(r1)) + ":" + (l2 + NatToString(r2)))
      == Some(Rect(r1, r2, ColIdx(Coord(l1, r1)), ColIdx(Coord(l2, r2))))
  {
    var a := l1 + NatToString(r1);
    var b := l2 + NatToString(r2);
    NoColonInLettersRow(l1, r1);
    NoColonInLettersRow(l2, r2);
    RangeEndsOfJoin(a, b);
    ParseLettersRow(l1, r1);
    ParseLettersRow(l2, r2);
  }

  lemma SingleCellBounds(col: int, row: int)
    requires 1 <= col <= MaxColumn && row >= 1
    ensures RangeBounds(CoordString(col, row)) == Some(Rect(row, row, col, col))
  {
    ParseCoordString(col, row);
    NoColonInLettersRow(ColumnLetter(col), row);
  }

  /** The text of a merged range reads back as that range. */
  lemma RangeStringBounds(r: Rect)
    requires ValidRect(r)
    ensures RangeBounds(RangeString(r)) == Some(r)
  {
    if r.minRow == r.maxRow && r.minCol == r.maxCol {
      SingleCellBounds(r.minCol, r.minRow);
    } else {
      ColumnLetterLength(r.minCol);
      ColumnLetterLength(r.maxCol);
      ParseCoordString(r.minCol, r.minRow);
      ParseCoordString(r.maxCol, r.maxRow);
      BoundsOfTwoCells(ColumnLetter(r.minCol), r.minRow, ColumnLetter(r.maxCol), r.maxRow);
    }
  }

  /** Distinct merged ranges have distinct texts. */
  lemma RangeStringInjective(a: Rect, b: Rect)
    requires ValidRect(a) && ValidRect(b) && RangeString(a) == RangeString(b)
    ensures a == b
  {
    RangeStringBounds(a);
    RangeStringBounds(b);
  }
}
