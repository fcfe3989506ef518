/** `_formatted_element`: one header or data cell, padded according to an adjustment. */
module Cells {
  import opened Wrappers
  import opened Strings
  import opened Values

  /** The adjustment modes `_ADJUST_OPTIONS` lists. */
  datatype Adjust = Auto | Left | Center | Right | Compact

  const AdjustOptions: seq<string> := ["auto", "left", "center", "right", "compact"]

  function AdjustName(a: Adjust): string
  {
    match a
    case Auto => "auto"
    case Left => "left"
    case Center => "center"
    case Right => "right"
    case Compact => "compact"
  }

  /** Reads an adjustment setting; None for a string outside `AdjustOptions`. */
  function ParseAdjust(s: string): (r: Option<Adjust>)
    ensures r.Some? <==> s in AdjustOptions
    ensures r.Some? ==> AdjustName(r.value) == s
  {
    if s == "auto" then Some(Auto)
    else if s == "left" then Some(Left)
    else if s == "center" then Some(Center)
    else if s == "right" then Some(Right)
    else if s == "compact" then Some(Compact)
    else None
  }

  lemma ParseAdjustName(a: Adjust)
    ensures ParseAdjust(AdjustName(a)) == Some(a)
  {
  }

  /** Whether the element is a column name or a data value. */
  datatype Kind = ColumnName | Data

  /** The text the cell shows before padding: the fixed point form for a number in a data
      cell under `auto`, `str()` of the element otherwise. */
  function CellText(e: Value, a: Adjust, kind: Kind, digitsRight: nat): string
  {
    if a == Auto && kind == Data && e.Num? then FixedPoint(e, digitsRight) else Str(e)
  }

  /** The width the cell is padded to: the column width (at least `data_min_len`), or for
      `compact` only `data_min_len`. */
  function TargetWidth(a: Adjust, colWidth: int, dataMinLen: int): int
  {
    if a == Compact then dataMinLen else Max(colWidth, dataMinLen)
  }

  /** Where an adjustment puts the text in its cell. */
  datatype Side = AtStart | AtEnd | Centred

  /** `right`, and `auto` for numeric data, put the text last; `center` centres it; the
      other modes put it first. */
  function SideOf(a: Adjust, e: Value, kind: Kind): Side
  {
    if a == Right || (a == Auto && kind == Data && e.Num?) then AtEnd
    else if a == Center then Centred
    else AtStart
  }

  /** `ljust`, `rjust` or `center` of `s` to width `w`, by side. */
  function Justify(side: Side, s: string, w: int): string
  {
    match side
    case AtStart => LJust(s, w)
    case AtEnd => RJust(s, w)
    case Centred => Strings.Center(s, w)
  }

  /** Where the text starts in the padded cell. */
  function TextOffset(a: Adjust, e: Value, kind: Kind, len: nat, target: int): nat
  {
    match SideOf(a, e, kind)
    case AtStart => 0
    case AtEnd => Max(len, target) - len
    case Centred => CenterLeftPad(len, target)
  }

  /** Each of the three justifications pads `s` with spaces to width `w` at its side. */
  lemma JustifyPadded(a: Adjust, e: Value, kind: Kind, s: string, w: int)
    ensures var r := Justify(SideOf(a, e, kind), s, w);
            |r| == Max(|s|, w) && Padded(r, s, TextOffset(a, e, kind, |s|, w))
  {
  }

  /** The cell for a known adjustment: the text padded with spaces to the target width,
      never truncated, and placed first (`left`, `compact`, `auto` for text and for column
      names), last (`right`, `auto` for numeric data) or centred as `str.center` does. */
  function Placed(a: Adjust, e: Value, colWidth: int, dataMinLen: int, digitsRight: nat, kind: Kind): string
  {
    var colLen := Max(colWidth, dataMinLen);
    match a
    case Right => RJust(Str(e), colLen)
    case Center => Strings.Center(Str(e), colLen)
    case Left => LJust(Str(e), colLen)
    case Auto =>
      if kind == Data && e.Num? then RJust(FixedPoint(e, digitsRight), colLen)
      else LJust(Str(e), colLen)
    case Compact => LJust(Str(e), dataMinLen)
  }

  /** The placed cell is the cell text padded to the target width at its offset. */
  lemma PlacedPadded(a: Adjust, e: Value, colWidth: int, dataMinLen: int, digitsRight: nat, kind: Kind)
    ensures var r := Placed(a, e, colWidth, dataMinLen, digitsRight, kind);
            var text := CellText(e, a, kind, digitsRight);
            var target := TargetWidth(a, colWidth, dataMinLen);
            |r| == Max(|text|, target) && Padded(r, text, TextOffset(a, e, kind, |text|, target))
  {
    var text := CellText(e, a, kind, digitsRight);
    var target := TargetWidth(a, colWidth, dataMinLen);
    assert Placed(a, e, colWidth, dataMinLen, digitsRight, kind) == Justify(SideOf(a, e, kind), text, target);
    JustifyPadded(a, e, kind, text, target);
  }

  /** `_formatted_element(element, adjust, pos, element_type)`, given the column's width
      `col_widths[pos]`, `data_min_len` and the column's `col_digits_right[pos]`. An
      adjustment outside `AdjustOptions` raises ValueError; any other gives the cell
      `Placed` describes. */
  function FormattedElement(e: Value, adjust: string, colWidth: int, dataMinLen: int,
                            digitsRight: nat, kind: Kind): (r: Result<string>)
    ensures r.Failure? <==> adjust !in AdjustOptions
    ensures r.Failure? ==> r.error == ValueError
    ensures r.Success? ==>
      var a := ParseAdjust(adjust).value;
      var text := CellText(e, a, kind, digitsRight);
      var target := TargetWidth(a, colWidth, dataMinLen);
      |r.value| == Max(|text|, target) && Padded(r.value, text, TextOffset(a, e, kind, |text|, target))
  {
    match ParseAdjust(adjust)
    case None => Failure(ValueError)
    case Some(a) =>
      PlacedPadded(a, e, colWidth, dataMinLen, digitsRight, kind);
      Success(Placed(a, e, colWidth, dataMinLen, digitsRight, kind))
  }

  /** Stripping a formatted cell gives back the stripped text it was made from: padding
      is the only thing a cell adds. */
  lemma FormattedElementStrip(e: Value, adjust: string, colWidth: int, dataMinLen: int,
                              digitsRight: nat, kind: Kind)
    requires adjust in AdjustOptions
    ensures var r := FormattedElement(e, adjust, colWidth, dataMinLen, digitsRight, kind);
            var a := ParseAdjust(adjust).value;
            Strip(r.value) == Strip(CellText(e, a, kind, digitsRight))
  {
    var r := FormattedElement(e, adjust, colWidth, dataMinLen, digitsRight, kind);
    var a := ParseAdjust(adjust).value;
    var text := CellText(e, a, kind, digitsRight);
    StripPadded(r.value, text, TextOffset(a, e, kind, |text|, TargetWidth(a, colWidth, dataMinLen)));
  }

  /** A formatted cell holds no character outside its value's `str` other than spaces and
      numerals. */
  lemma FormattedElementAvoids(e: Value, adjust: string, colWidth: int, dataMinLen: int,
                               digitsRight: nat, kind: Kind, c: char)
    requires c != ' ' && !NumeralChar(c) && c !in Str(e)
    requires adjust in AdjustOptions
    ensures c !in FormattedElement(e, adjust, colWidth, dataMinLen, digitsRight, kind).value
  {
    var r := FormattedElement(e, adjust, colWidth, dataMinLen, digitsRight, kind);
    var a := ParseAdjust(adjust).value;
    var text := CellText(e, a, kind, digitsRight);
    if e.Num? {
      NumeralText(e, digitsRight);
    }
    assert c !in text;
    PaddedAvoids(r.value, text, TextOffset(a, e, kind, |text|, TargetWidth(a, colWidth, dataMinLen)), c);
  }

  /** The centred header of the 'Name' column of the sample table, 9 wide, has three
      spaces before the name and two after it. */
  lemma CenteredNameHeader()
    ensures FormattedElement(Text("Name"), "center", 9, 1, 0, ColumnName) == Success("   Name  ")
  {
    assert ParseAdjust("center") == Some(Center);
    assert CenterLeftPad(4, 9) == 3;
    assert Repeat(" ", 0) == "";
    assert Repeat(" ", 1) == " ";
    assert Repeat(" ", 2) == "  ";
    assert Repeat(" ", 3) == "   ";
    assert Strings.Center("Name", 9) == "   " + "Name" + "  ";
    assert Str(Text("Name")) == "Name" && Max(9, 1) == 9;
    assert "   " + "Name" + "  " == "   Name  " by {
      var s := "   " + "Name" + "  ";
      assert |s| == 9;
      forall i | 0 <= i < 9 ensures s[i] == "   Name  "[i] { }
    }
    assert FormattedElement(Text("Name"), "center", 9, 1, 0, ColumnName) == Success(Strings.Center("Name", 9));
  }
}
