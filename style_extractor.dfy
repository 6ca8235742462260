/** `ExcelStyleExtractor`: colours rendered as text, the width and height
    caches of a sheet, and the per-cell style record that leaves out every
    field that is absent. Widths and heights are floating-point numbers,
    modelled as reals that are only compared with zero and copied. */
module StyleExtractor {
  import opened Fallible
  import opened Text

  // ---------------------------------------------------------------- colours

  /** The parts of an openpyxl `Color` the extractor reads: its type (`"rgb"`,
      `"theme"`, `"indexed"`, ...), its ARGB text and its theme number. */
  datatype Color = Color(kind: string, rgb: Option<string>, theme: int)

  /** `color_to_hex`: `"#"` and the last six characters of an ARGB text of at
      least six characters, `"theme_<n>"` for a theme colour, and `None`
      otherwise. */
  function ColorToHex(color: Option<Color>): (r: Option<string>)
    ensures r.Some? ==> |r.value| >= 7
  {
    match color
    case None => None
    case Some(c) =>
      if c.kind == "rgb" then
        if c.rgb.Some? && |c.rgb.value| >= 6 then
          Some("#" + c.rgb.value[|c.rgb.value| - 6..])
        else None
      else if c.kind == "theme" then Some("theme_" + IntToString(c.theme))
      else None
  }

  /** The text starts with `#` exactly for an rgb colour with a long enough
      ARGB text, and then is `#` followed by that text's last six characters:
      the alpha channel is dropped. */
  lemma HexOfRgb(color: Option<Color>)
    ensures var r := ColorToHex(color);
      (r.Some? && r.value[0] == '#') <==>
        (color.Some? && color.value.kind == "rgb" && color.value.rgb.Some? && |color.value.rgb.value| >= 6)
    ensures var r := ColorToHex(color);
      r.Some? && r.value[0] == '#' ==>
        var argb := color.value.rgb.value;
        |r.value| == 7 && r.value[1..] == argb[|argb| - 6..] && argb == argb[..|argb| - 6] + r.value[1..]
  {
  }

  /** A theme colour's text starts with `theme_` and reads back, for a theme
      number that is not negative, as that number. */
  lemma HexOfTheme(color: Option<Color>)
    requires color.Some? && color.value.kind == "theme"
    ensures var r := ColorToHex(color);
      r.Some? && r.value[..6] == "theme_"
    ensures var r := ColorToHex(color);
      color.value.theme >= 0 ==> IsDigits(r.value[6..]) && DigitsValue(r.value[6..]) == color.value.theme
  {
    var r := ColorToHex(color);
    assert r.value[..6] == "theme_";
    if color.value.theme >= 0 {
      assert r.value[6..] == NatToString(color.value.theme);
      DigitsValueOfNatToString(color.value.theme);
    }
  }

  /** No colour, a colour of another type, and an rgb colour without an ARGB
      text of six characters all give `None`. */
  lemma HexAbsent(color: Option<Color>)
    ensures ColorToHex(color).None? <==>
      || color.None?
      || (color.value.kind != "rgb" && color.value.kind != "theme")
      || (color.value.kind == "rgb" && (color.value.rgb.None? || |color.value.rgb.value| < 6))
  {
  }

  /** Worked case: opaque red. */
  lemma HexOpaqueRed()
    ensures ColorToHex(Some(Color("rgb", Some("FFFF0000"), 0))) == Some("#FF0000")
  {
    var argb := "FFFF0000";
    assert |argb| == 8 && argb[2..] == "FF0000";
    assert "#" + "FF0000" == "#FF0000";
  }

  /** Worked case: red at half opacity loses its alpha channel. */
  lemma HexHalfTransparentRed()
    ensures ColorToHex(Some(Color("rgb", Some("80FF0000"), 0))) == Some("#FF0000")
  {
    var argb := "80FF0000";
    assert |argb| == 8 && argb[2..] == "FF0000";
    assert "#" + "FF0000" == "#FF0000";
  }

  /** Worked case: theme colour 1. */
  lemma HexThemeOne()
    ensures ColorToHex(Some(Color("theme", None, 1))) == Some("theme_1")
  {
    assert IntToString(1) == [DigitChar(1)];
    assert DigitChar(1) == '1';
    assert "theme_" + "1" == "theme_1";
  }

  // ---------------------------------------------------------------- size caches

  /** Python truthiness of an optional float: set and not zero. */
  predicate IsSet(v: Option<real>) {
    v.Some? && v.value != 0.0
  }

  /** The dimensions of a sheet: a width per column letter and a height per
      row number, either of which may be unset. */
  datatype Dimensions = Dimensions(columns: map<string, Option<real>>, rows: map<int, Option<real>>)

  /** The pair `build_cell_size_cache` returns. */
  datatype SizeCache = SizeCache(colWidths: map<string, real>, rowHeights: map<int, real>)

  /** One of the two loops of `build_cell_size_cache`: the entries whose size
      is set, with that size. */
  method KeepSetSizes<K>(dims: map<K, Option<real>>) returns (kept: map<K, real>)
    ensures forall k :: k in kept <==> k in dims && IsSet(dims[k])
    ensures forall k :: k in kept ==> dims[k] == Some(kept[k])
  {
    kept := map[];
    var rest := dims.Keys;
    while rest != {}
      invariant rest <= dims.Keys
      invariant forall k :: k in kept <==> k in dims && k !in rest && IsSet(dims[k])
      invariant forall k :: k in kept ==> dims[k] == Some(kept[k])
      decreases rest
    {
      var k :| k in rest;
      if IsSet(dims[k]) {
        kept := kept[k := dims[k].value];
      }
      rest := rest - {k};
    }
  }

  /** `build_cell_size_cache`: exactly the columns with a set width and the
      rows with a set height, each with its size. */
  method BuildCellSizeCache(sheet: Dimensions) returns (cache: SizeCache)
    ensures forall c :: c in cache.colWidths <==> c in sheet.columns && IsSet(sheet.columns[c])
    ensures forall c :: c in cache.colWidths ==> sheet.columns[c] == Some(cache.colWidths[c])
    ensures forall n :: n in cache.rowHeights <==> n in sheet.rows && IsSet(sheet.rows[n])
    ensures forall n :: n in cache.rowHeights ==> sheet.rows[n] == Some(cache.rowHeights[n])
  {
    var widths := KeepSetSizes(sheet.columns);
    var heights := KeepSetSizes(sheet.rows);
    cache := SizeCache(widths, heights);
  }

  // ---------------------------------------------------------------- cell styles

  /** A cell's fill: its pattern type (unset or empty for none) and the
      foreground and background colours. */
  datatype Fill = Fill(patternType: Option<string>, fgColor: Option<Color>, bgColor: Option<Color>)

  /** Where an ordinary cell sits; an interior cell of a merge (openpyxl's
      `MergedCell`) has no column letter and so no place. */
  datatype Place = Place(columnLetter: string, row: int)

  datatype Cell = Cell(fill: Option<Fill>, place: Option<Place>)

  /** The `fill` part of a style record. */
  datatype FillInfo = FillInfo(patternType: string, fgColor: Option<string>, bgColor: Option<string>)

  /** The style record; an absent key of the dictionary is `None`. */
  datatype Styles = Styles(fill: Option<FillInfo>, width: Option<real>, height: Option<real>)

  /** Truthiness of a fill's pattern type. */
  predicate HasPattern(f: Fill) {
    f.patternType.Some? && f.patternType.value != ""
  }

  /** Truthiness of both parts of a cell's place. */
  predicate Placed(cell: Cell) {
    cell.place.Some? && cell.place.value.columnLetter != "" && cell.place.value.row != 0
  }

  /** `extract_cell_styles`: a `fill` entry exactly when the pattern type is
      set, holding the colours that render to text; a width and a height only
      for a cell with a place whose column, resp. row, is in a given cache. */
  method ExtractCellStyles(cell: Cell, colWidths: Option<map<string, real>>, rowHeights: Option<map<int, real>>)
    returns (styles: Styles)
    ensures styles.fill.Some? <==> cell.fill.Some? && HasPattern(cell.fill.value)
    ensures styles.fill.Some? ==>
      var f := cell.fill.value;
      styles.fill.value == FillInfo(f.patternType.value, ColorToHex(f.fgColor), ColorToHex(f.bgColor))
    ensures styles.width.Some? <==>
      Placed(cell) && colWidths.Some? && cell.place.value.columnLetter in colWidths.value
    ensures styles.width.Some? ==> styles.width.value == colWidths.value[cell.place.value.columnLetter]
    ensures styles.height.Some? <==>
      Placed(cell) && rowHeights.Some? && cell.place.value.row in rowHeights.value
    ensures styles.height.Some? ==> styles.height.value == rowHeights.value[cell.place.value.row]
    ensures cell.place.None? ==> styles.width.None? && styles.height.None?
    ensures cell.fill.None? && colWidths.None? && rowHeights.None? ==> styles == Styles(None, None, None)
  {
    styles := Styles(None, None, None);
    if cell.fill.Some? && HasPattern(cell.fill.value) {
      var f := cell.fill.value;
      var info := FillInfo(f.patternType.value, None, None);
      var fg := ColorToHex(f.fgColor);
      if fg.Some? && fg.value != "" {
        info := info.(fgColor := fg);
      }
      var bg := ColorToHex(f.bgColor);
      if bg.Some? && bg.value != "" {
        info := info.(bgColor := bg);
      }
      styles := styles.(fill := Some(info));
    }
    if cell.place.Some? {
      var place := cell.place.value;
      if place.columnLetter != "" && place.row != 0 {
        if colWidths.Some? && |colWidths.value| > 0 && place.columnLetter in colWidths.value {
          styles := styles.(width := Some(colWidths.value[place.columnLetter]));
        }
        if rowHeights.Some? && |rowHeights.value| > 0 && place.row in rowHeights.value {
          styles := styles.(height := Some(rowHeights.value[place.row]));
        }
      }
    }
  }
}
