/** How `__str__` lays its lines out once the cells are formatted: separators, borders,
    the separator line and the order of the sections. Everything here is a function of
    the formatting attributes and of formatted cells, whatever table they came from. */
module Lines {
  import opened Wrappers
  import opened Strings
  import opened Layouts

  /** The results of a sequence of calls made in order: all their values, or the first
      exception raised. */
  function AllOk<T>(rs: seq<Result<T>>): Result<seq<T>>
  {
    if |rs| == 0 then Success([])
    else match rs[0]
      case Failure(e) => Failure(e)
      case Success(v) =>
        match AllOk(rs[1..])
        case Failure(e) => Failure(e)
        case Success(vs) => Success([v] + vs)
  }

  /** `AllOk` succeeds exactly when every call does, with their values in order, and
      otherwise raises what the first failing call raised. */
  lemma {:induction false} AllOkSpec<T>(rs: seq<Result<T>>)
    ensures AllOk(rs).Success? <==> forall i | 0 <= i < |rs| :: rs[i].Success?
    ensures AllOk(rs).Success? ==>
      |AllOk(rs).value| == |rs| && forall i | 0 <= i < |rs| :: rs[i] == Success(AllOk(rs).value[i])
    ensures AllOk(rs).Failure? ==>
      exists i | 0 <= i < |rs| :: rs[i] == Failure(AllOk(rs).error) && forall j | 0 <= j < i :: rs[j].Success?
  {
    if |rs| > 0 && rs[0].Success? {
      var tail := rs[1..];
      AllOkSpec(tail);
      assert forall i | 1 <= i < |rs| :: rs[i] == tail[i - 1];
      if AllOk(tail).Failure? {
        var k :| 0 <= k < |tail| && tail[k] == Failure(AllOk(tail).error) && forall j | 0 <= j < k :: tail[j].Success?;
        assert rs[k + 1] == Failure(AllOk(rs).error);
      }
    }
  }

  // ---------------------------------------------------------------------------------------
  // Separators and borders

  /** `_get_value_separator`: `value_sep` with `value_spacing` spaces on each side. */
  function ValueSeparator(f: Formatting): (r: string)
    ensures |r| == 2 * Max(f.valueSpacing, 0) + |f.valueSep|
  {
    Spaces(f.valueSpacing) + f.valueSep + Spaces(f.valueSpacing)
  }

  /** `_get_sepline_separator`: `sepline_sep` with `value_spacing` copies of `sepline_char`
      on each side. */
  function SeplineSeparator(f: Formatting): (r: string)
    ensures |r| == 2 * Max(f.valueSpacing, 0) * |f.seplineChar| + |f.seplineSep|
  {
    Repeat(f.seplineChar, f.valueSpacing) + f.seplineSep + Repeat(f.seplineChar, f.valueSpacing)
  }

  /** The separators of the default formatting, as the docstrings show them. */
  lemma DefaultSeparators()
    ensures ValueSeparator(Defaults()) == "  |  "
    ensures SeplineSeparator(Defaults()) == "--+--"
  {
    assert Repeat(" ", 2) == "  " by {
      assert Repeat(" ", 1) == " " + Repeat(" ", 0);
    }
    assert Repeat("-", 2) == "--" by {
      assert Repeat("-", 1) == "-" + Repeat("-", 0);
    }
  }

  /** The left border of a header or data line, empty when `left_border` is off. */
  function LeftBorder(f: Formatting): string
  {
    if f.leftBorder then f.valueSep + Spaces(f.valueSpacing) else ""
  }

  /** The right border of a header or data line, empty when `right_border` is off. */
  function RightBorder(f: Formatting): string
  {
    if f.rightBorder then Spaces(f.valueSpacing) + f.valueSep else ""
  }

  /** `_wrap_data_with_borders`. */
  function WrapWithBorders(f: Formatting, line: string): (r: string)
    ensures |r| == |LeftBorder(f)| + |line| + |RightBorder(f)|
  {
    LeftBorder(f) + line + RightBorder(f)
  }

  /** A wrapped line holds the line unchanged between the two borders. */
  lemma WrappedLine(f: Formatting, line: string)
    ensures var r, k := WrapWithBorders(f, line), |LeftBorder(f)|;
            r[..k] == LeftBorder(f) && r[k..k + |line|] == line && r[k + |line|..] == RightBorder(f)
  {
    var r, k := WrapWithBorders(f, line), |LeftBorder(f)|;
    assert r == LeftBorder(f) + (line + RightBorder(f));
    assert r[k..] == line + RightBorder(f);
    assert r[k..k + |line|] == (line + RightBorder(f))[..|line|];
  }

  /** A header or data line made of formatted cells: joined by the value separator and
      wrapped in the borders. */
  function CellLine(f: Formatting, cells: seq<string>): string
  {
    WrapWithBorders(f, Join(ValueSeparator(f), cells))
  }

  /** One run of `sepline_char` per column, as long as that column's formatted name. */
  function SeplineSegments(f: Formatting, cells: seq<string>): (r: seq<string>)
    ensures |r| == |cells|
  {
    seq(|cells|, i requires 0 <= i < |cells| => Repeat(f.seplineChar, |cells[i]|))
  }

  /** With a one-character `sepline_char` each run is as wide as its column's name. */
  lemma SegmentWidths(f: Formatting, cells: seq<string>)
    requires |f.seplineChar| == 1
    ensures forall i | 0 <= i < |cells| :: |SeplineSegments(f, cells)[i]| == |cells[i]|
  {
  }

  /** The left border of the separator line, empty when `left_border` is off. */
  function SeplineLeft(f: Formatting): string
  {
    if f.leftBorder then f.seplineSep + Repeat(f.seplineChar, f.valueSpacing) else ""
  }

  /** The right border of the separator line, empty when `right_border` is off. */
  function SeplineRight(f: Formatting): string
  {
    if f.rightBorder then Repeat(f.seplineChar, f.valueSpacing) + f.seplineSep else ""
  }

  /** The separator line under formatted column names. */
  function SeplineOf(f: Formatting, cells: seq<string>): string
  {
    SeplineLeft(f) + Join(SeplineSeparator(f), SeplineSegments(f, cells)) + SeplineRight(f)
  }

  /** With a one-character `sepline_char` and a `sepline_sep` as long as `value_sep`, the
      separator line is exactly as wide as the line of the same cells. */
  lemma SeplineWidth(f: Formatting, cells: seq<string>)
    requires |f.seplineChar| == 1 && |f.seplineSep| == |f.valueSep|
    ensures |SeplineOf(f, cells)| == |CellLine(f, cells)|
  {
    SegmentWidths(f, cells);
    JoinSameShape(SeplineSeparator(f), SeplineSegments(f, cells), ValueSeparator(f), cells);
  }

  // ---------------------------------------------------------------------------------------
  // The sections of `__str__`

  /** The number of sections a flag switches on. */
  function Flag(b: bool): nat
  {
    if b then 1 else 0
  }

  /** The separator line as a section of its own, present when `on`. */
  function Section(on: bool, line: string): (r: seq<string>)
    ensures |r| == Flag(on)
  {
    if on then [line] else []
  }

  /** The header line as a section: absent when `header` is off. */
  function HeaderSection(f: Formatting, cells: seq<string>): (r: seq<string>)
    ensures |r| == Flag(f.header)
  {
    if f.header then [CellLine(f, cells)] else []
  }

  /** One data line per row of cells, in order. */
  function DataSection(f: Formatting, rows: seq<seq<string>>): (r: seq<string>)
    ensures |r| == |rows|
  {
    seq(|rows|, l requires 0 <= l < |rows| => CellLine(f, rows[l]))
  }

  /** Data line `l` is the line of row `l`'s cells. */
  lemma DataSectionAt(f: Formatting, rows: seq<seq<string>>, l: nat)
    requires l < |rows|
    ensures DataSection(f, rows)[l] == CellLine(f, rows[l])
  {
  }

  /** The lines in order: the separator line for the top border, the header lines, the
      separator line under the header, the data lines and the separator line for the
      bottom border, each separator present when its flag (`top_border`,
      `header_sepline`, `bottom_border`) is set. */
  function Assemble(top: bool, mid: bool, bottom: bool, sep: string, header: seq<string>, data: seq<string>): (r: seq<string>)
    ensures |r| == Flag(top) + |header| + Flag(mid) + |data| + Flag(bottom)
  {
    Section(top, sep) + header + Section(mid, sep) + data + Section(bottom, sep)
  }

  /** The lines of `__str__` from the header cells and the cells of each row: the first
      exception met while formatting them, header cells first, or the assembled lines. */
  function LinesOf(f: Formatting, header: Result<seq<string>>, rows: seq<Result<seq<string>>>): Result<seq<string>>
  {
    match header
    case Failure(e) => Failure(e)
    case Success(hc) =>
      match AllOk(rows)
      case Failure(e) => Failure(e)
      case Success(rc) =>
        Success(Assemble(f.topBorder, f.headerSepline, f.bottomBorder,
                         SeplineOf(f, hc), HeaderSection(f, hc), DataSection(f, rc)))
  }

  /** With no rows, the lines are the frame around the header alone. */
  lemma NoRowLines(f: Formatting, header: Result<seq<string>>)
    requires header.Success?
    ensures LinesOf(f, header, []) ==
      Success(Assemble(f.topBorder, f.headerSepline, f.bottomBorder, SeplineOf(f, header.value),
                       Section(f.header, CellLine(f, header.value)), []))
  {
    assert AllOk<seq<string>>([]) == Success([]);
    assert DataSection(f, []) == [];
  }

  /** With no rows and the borders, the header and its separator line all switched on, the
      lines are the separator line, the header line and the separator line twice more. */
  lemma FullFrameNoRowLines(f: Formatting, header: Result<seq<string>>)
    requires header.Success? && f.topBorder && f.header && f.headerSepline && f.bottomBorder
    ensures LinesOf(f, header, []) ==
      Success([SeplineOf(f, header.value), CellLine(f, header.value),
               SeplineOf(f, header.value), SeplineOf(f, header.value)])
  {
    NoRowLines(f, header);
    var sep, h := SeplineOf(f, header.value), CellLine(f, header.value);
    assert Assemble(true, true, true, sep, [h], []) == [sep, h, sep, sep];
  }

  /** The number of lines `__str__` adds around the data lines. */
  function FrameLines(f: Formatting): nat
  {
    Flag(f.topBorder) + Flag(f.header) + Flag(f.headerSepline) + Flag(f.bottomBorder)
  }

  /** The lines exist exactly when the header cells and every row's cells do; otherwise the
      error is the header cells' or else the first failing row's. */
  lemma LinesSucceedIff(f: Formatting, header: Result<seq<string>>, rows: seq<Result<seq<string>>>)
    ensures LinesOf(f, header, rows).Success? <==>
      header.Success? && forall l | 0 <= l < |rows| :: rows[l].Success?
    ensures LinesOf(f, header, rows).Failure? ==>
      LinesOf(f, header, rows).error == if header.Failure? then header.error else AllOk(rows).error
  {
    AllOkSpec(rows);
  }

  /** Where the data lines sit among the lines. */
  lemma AssembleData(top: bool, mid: bool, bottom: bool, sep: string, header: seq<string>, data: seq<string>,
                     k: nat, l: nat)
    requires k == Flag(top) + |header| + Flag(mid) && l < |data|
    ensures Assemble(top, mid, bottom, sep, header, data)[k + l] == data[l]
  {
    var pre := Section(top, sep) + header + Section(mid, sep);
    assert Assemble(top, mid, bottom, sep, header, data) == pre + data + Section(bottom, sep);
  }

  /** The assembled lines of the header cells `hc` and row cells `rc`: one per row plus
      one per frame section. */
  lemma AssembledLength(f: Formatting, hc: seq<string>, rc: seq<seq<string>>)
    ensures |Assemble(f.topBorder, f.headerSepline, f.bottomBorder, SeplineOf(f, hc),
                      HeaderSection(f, hc), DataSection(f, rc))| == FrameLines(f) + |rc|
  {
  }

  /** The data line of row `l` comes after the sections above the data. */
  lemma AssembledRows(f: Formatting, hc: seq<string>, rc: seq<seq<string>>)
    ensures forall l | 0 <= l < |rc| ::
      Assemble(f.topBorder, f.headerSepline, f.bottomBorder, SeplineOf(f, hc), HeaderSection(f, hc),
               DataSection(f, rc))[Flag(f.topBorder) + Flag(f.header) + Flag(f.headerSepline) + l]
      == CellLine(f, rc[l])
  {
    var hs, data := HeaderSection(f, hc), DataSection(f, rc);
    var k := Flag(f.topBorder) + Flag(f.header) + Flag(f.headerSepline);
    forall l | 0 <= l < |rc|
      ensures Assemble(f.topBorder, f.headerSepline, f.bottomBorder, SeplineOf(f, hc), hs, data)[k + l] == CellLine(f, rc[l])
    {
      AssembleData(f.topBorder, f.headerSepline, f.bottomBorder, SeplineOf(f, hc), hs, data, k, l);
      DataSectionAt(f, rc, l);
    }
  }

  /** One line per row plus one per frame section switched on; the line of row `l` comes
      right after the top border, the header and the separator under it. */
  lemma LinesCount(f: Formatting, header: Result<seq<string>>, rows: seq<Result<seq<string>>>)
    requires LinesOf(f, header, rows).Success?
    ensures AllOk(rows).Success? && |AllOk(rows).value| == |rows|
    ensures |LinesOf(f, header, rows).value| == FrameLines(f) + |rows|
    ensures forall l | 0 <= l < |rows| ::
      LinesOf(f, header, rows).value[Flag(f.topBorder) + Flag(f.header) + Flag(f.headerSepline) + l] ==
      CellLine(f, AllOk(rows).value[l])
  {
    AllOkSpec(rows);
    var hc, rc := header.value, AllOk(rows).value;
    assert LinesOf(f, header, rows).value ==
      Assemble(f.topBorder, f.headerSepline, f.bottomBorder, SeplineOf(f, hc), HeaderSection(f, hc), DataSection(f, rc));
    AssembledLength(f, hc, rc);
    AssembledRows(f, hc, rc);
  }

  // ---------------------------------------------------------------------------------------
  // Frame flags

  /** The attributes the separators and borders are made of. */
  predicate SameStyle(f: Formatting, g: Formatting)
  {
    && f.valueSep == g.valueSep && f.valueSpacing == g.valueSpacing
    && f.seplineChar == g.seplineChar && f.seplineSep == g.seplineSep
    && f.leftBorder == g.leftBorder && f.rightBorder == g.rightBorder
  }

  /** Formatting with the same separators and borders makes the same lines of the same
      cells. */
  lemma SameStyleLines(f: Formatting, g: Formatting, hc: seq<string>, rc: seq<seq<string>>)
    requires SameStyle(f, g)
    ensures SeplineOf(g, hc) == SeplineOf(f, hc) && CellLine(g, hc) == CellLine(f, hc)
    ensures DataSection(g, rc) == DataSection(f, rc)
  {
    assert ValueSeparator(g) == ValueSeparator(f) && LeftBorder(g) == LeftBorder(f) && RightBorder(g) == RightBorder(f);
    assert SeplineSegments(g, hc) == SeplineSegments(f, hc);
  }

  /** Under formatting with the same separators and borders, the same cells give the same
      lines, in the order `g`'s frame flags choose. */
  lemma LinesUnder(f: Formatting, g: Formatting, header: Result<seq<string>>, rows: seq<Result<seq<string>>>)
    requires SameStyle(f, g) && LinesOf(f, header, rows).Success?
    ensures LinesOf(g, header, rows).Success?
    ensures LinesOf(g, header, rows).value ==
      Assemble(g.topBorder, g.headerSepline, g.bottomBorder, SeplineOf(f, header.value),
               Section(g.header, CellLine(f, header.value)), DataSection(f, AllOk(rows).value))
  {
    SameStyleLines(f, g, header.value, AllOk(rows).value);
  }

  /** `f` with the frame flag `which` (0 top border, 1 header, 2 header separator, 3 bottom
      border) set to `b`. */
  function SetFlag(f: Formatting, which: nat, b: bool): Formatting
    requires which < 4
  {
    Formatting(
      header := if which == 1 then b else f.header,
      headerSepline := if which == 2 then b else f.headerSepline,
      headerAdjust := f.headerAdjust,
      topBorder := if which == 0 then b else f.topBorder,
      bottomBorder := if which == 3 then b else f.bottomBorder,
      leftBorder := f.leftBorder, rightBorder := f.rightBorder,
      dataAdjust := f.dataAdjust, dataMinLen := f.dataMinLen, valueSpacing := f.valueSpacing,
      valueSep := f.valueSep, seplineSep := f.seplineSep, seplineChar := f.seplineChar)
  }

  /** Setting one frame flag changes that flag and nothing else. */
  lemma SetFlagFields(f: Formatting, which: nat, b: bool)
    requires which < 4
    ensures var g := SetFlag(f, which, b);
            && SameStyle(f, g)
            && g.headerAdjust == f.headerAdjust && g.dataAdjust == f.dataAdjust && g.dataMinLen == f.dataMinLen
            && g.topBorder == (if which == 0 then b else f.topBorder)
            && g.header == (if which == 1 then b else f.header)
            && g.headerSepline == (if which == 2 then b else f.headerSepline)
            && g.bottomBorder == (if which == 3 then b else f.bottomBorder)
  {
  }

  /** The top border is the first line. */
  lemma AssembleTop(mid: bool, bottom: bool, sep: string, header: seq<string>, data: seq<string>)
    ensures Assemble(true, mid, bottom, sep, header, data) == [sep] + Assemble(false, mid, bottom, sep, header, data)
  {
    var rest := header + Section(mid, sep) + data + Section(bottom, sep);
    assert Assemble(true, mid, bottom, sep, header, data) == [sep] + rest;
    assert Assemble(false, mid, bottom, sep, header, data) == rest;
  }

  /** The bottom border is the last line. */
  lemma AssembleBottom(top: bool, mid: bool, sep: string, header: seq<string>, data: seq<string>)
    ensures Assemble(top, mid, true, sep, header, data) == Assemble(top, mid, false, sep, header, data) + [sep]
  {
  }

  /** The two halves of a concatenation. */
  lemma Halves<T>(a: seq<T>, b: seq<T>)
    ensures (a + b)[..|a|] == a && (a + b)[|a|..] == b
  {
  }

  /** The parts around one element of a concatenation. */
  lemma Around<T>(a: seq<T>, x: T, b: seq<T>)
    ensures var s := a + [x] + b;
            s[|a|] == x && s[..|a|] == a && s[|a| + 1..] == b
  {
    var s := a + [x] + b;
    assert s == a + ([x] + b);
    Halves(a, [x] + b);
  }

  /** `r` is `s` with its element `x` at index `k` taken out. */
  predicate RemovedAt<T(==)>(s: seq<T>, k: nat, x: T, r: seq<T>)
  {
    k < |s| && s[k] == x && r == s[..k] + s[k + 1..]
  }

  /** `r` is `s` with `x` put in at index `k`. */
  predicate InsertedAt<T(==)>(s: seq<T>, k: nat, x: T, r: seq<T>)
  {
    k <= |s| && r == s[..k] + [x] + s[k..]
  }

  /** The header separator sits between the header lines and the data lines. */
  lemma AssembleHeaderSepline(top: bool, bottom: bool, sep: string, header: seq<string>, data: seq<string>,
                              k: nat, on: seq<string>, off: seq<string>)
    requires k == Flag(top) + |header|
    requires on == Assemble(top, true, bottom, sep, header, data)
    requires off == Assemble(top, false, bottom, sep, header, data)
    ensures InsertedAt(off, k, sep, on)
  {
    var pre := Section(top, sep) + header;
    var tail := data + Section(bottom, sep);
    assert off == pre + tail;
    assert on == pre + [sep] + tail;
    Halves(pre, tail);
  }

  /** The header line sits right after the top border. */
  lemma AssembleHeader(top: bool, mid: bool, bottom: bool, sep: string, h: string, data: seq<string>,
                       on: seq<string>, off: seq<string>)
    requires on == Assemble(top, mid, bottom, sep, [h], data)
    requires off == Assemble(top, mid, bottom, sep, [], data)
    ensures RemovedAt(on, Flag(top), h, off)
  {
    var pre, m, b := Section(top, sep), Section(mid, sep), Section(bottom, sep);
    var rest := m + data + b;
    Regroup(pre, [h], m, data, b);
    Regroup(pre, [], m, data, b);
    assert [] + rest == rest;
    Halves(pre, [h] + rest);
    Halves(pre, rest);
    Halves([h], rest);
  }

  /** A concatenation of five parts, regrouped after the first two. */
  lemma Regroup<T>(a: seq<T>, x: seq<T>, m: seq<T>, d: seq<T>, b: seq<T>)
    ensures a + x + m + d + b == a + (x + (m + d + b))
  {
  }

  /** Turning `top_border` on puts the separator line before everything else. */
  lemma TopBorderLines(f: Formatting, header: Result<seq<string>>, rows: seq<Result<seq<string>>>)
    requires LinesOf(f, header, rows).Success?
    ensures var on, off := LinesOf(SetFlag(f, 0, true), header, rows), LinesOf(SetFlag(f, 0, false), header, rows);
            on.Success? && off.Success? && on.value == [SeplineOf(f, header.value)] + off.value
  {
    SetFlagFields(f, 0, true);
    SetFlagFields(f, 0, false);
    LinesUnder(f, SetFlag(f, 0, true), header, rows);
    LinesUnder(f, SetFlag(f, 0, false), header, rows);
    AssembleTop(f.headerSepline, f.bottomBorder, SeplineOf(f, header.value),
                Section(f.header, CellLine(f, header.value)), DataSection(f, AllOk(rows).value));
  }

  /** Turning `bottom_border` on puts the separator line after everything else. */
  lemma BottomBorderLines(f: Formatting, header: Result<seq<string>>, rows: seq<Result<seq<string>>>)
    requires LinesOf(f, header, rows).Success?
    ensures var on, off := LinesOf(SetFlag(f, 3, true), header, rows), LinesOf(SetFlag(f, 3, false), header, rows);
            on.Success? && off.Success? && on.value == off.value + [SeplineOf(f, header.value)]
  {
    SetFlagFields(f, 3, true);
    SetFlagFields(f, 3, false);
    LinesUnder(f, SetFlag(f, 3, true), header, rows);
    LinesUnder(f, SetFlag(f, 3, false), header, rows);
    AssembleBottom(f.topBorder, f.headerSepline, SeplineOf(f, header.value),
                   Section(f.header, CellLine(f, header.value)), DataSection(f, AllOk(rows).value));
  }

  /** Formatting `on` with the header separator and `off` without it, otherwise as `f`:
      the separator line of `on` sits right after the top border and the header line. */
  lemma SeplineInserted(f: Formatting, on: Formatting, off: Formatting,
                        header: Result<seq<string>>, rows: seq<Result<seq<string>>>)
    requires LinesOf(f, header, rows).Success? && SameStyle(f, on) && SameStyle(f, off)
    requires on.topBorder == off.topBorder == f.topBorder && on.bottomBorder == off.bottomBorder == f.bottomBorder
    requires on.header == off.header == f.header && on.headerSepline && !off.headerSepline
    ensures LinesOf(on, header, rows).Success? && LinesOf(off, header, rows).Success?
    ensures InsertedAt(LinesOf(off, header, rows).value, Flag(f.topBorder) + Flag(f.header),
                       SeplineOf(f, header.value), LinesOf(on, header, rows).value)
  {
    LinesUnder(f, on, header, rows);
    LinesUnder(f, off, header, rows);
    var hs := Section(f.header, CellLine(f, header.value));
    AssembleHeaderSepline(f.topBorder, f.bottomBorder, SeplineOf(f, header.value), hs, DataSection(f, AllOk(rows).value),
                          Flag(f.topBorder) + Flag(f.header), LinesOf(on, header, rows).value, LinesOf(off, header, rows).value);
  }

  /** Turning `header_sepline` on inserts the separator line right after the top border
      and the header line. */
  lemma HeaderSeplineLines(f: Formatting, header: Result<seq<string>>, rows: seq<Result<seq<string>>>)
    requires LinesOf(f, header, rows).Success?
    ensures LinesOf(SetFlag(f, 2, true), header, rows).Success? && LinesOf(SetFlag(f, 2, false), header, rows).Success?
    ensures InsertedAt(LinesOf(SetFlag(f, 2, false), header, rows).value, Flag(f.topBorder) + Flag(f.header),
                       SeplineOf(f, header.value), LinesOf(SetFlag(f, 2, true), header, rows).value)
  {
    SetFlagFields(f, 2, true);
    SetFlagFields(f, 2, false);
    SeplineInserted(f, SetFlag(f, 2, true), SetFlag(f, 2, false), header, rows);
  }

  /** Formatting `g` without the header, otherwise as `f` with the header: the header line
      of `f` is dropped and nothing else. */
  lemma HeaderDropped(f: Formatting, g: Formatting, header: Result<seq<string>>, rows: seq<Result<seq<string>>>)
    requires LinesOf(f, header, rows).Success? && f.header && SameStyle(f, g)
    requires g.topBorder == f.topBorder && g.headerSepline == f.headerSepline && g.bottomBorder == f.bottomBorder
    requires !g.header
    ensures LinesOf(g, header, rows).Success?
    ensures RemovedAt(LinesOf(f, header, rows).value, Flag(f.topBorder), CellLine(f, header.value),
                      LinesOf(g, header, rows).value)
  {
    LinesWithHeader(f, header, rows);
    LinesWithoutHeader(f, g, header, rows);
    AssembleHeader(f.topBorder, f.headerSepline, f.bottomBorder, SeplineOf(f, header.value),
                   CellLine(f, header.value), DataSection(f, AllOk(rows).value),
                   LinesOf(f, header, rows).value, LinesOf(g, header, rows).value);
  }

  /** The lines with the header on, the header line among them. */
  lemma LinesWithHeader(f: Formatting, header: Result<seq<string>>, rows: seq<Result<seq<string>>>)
    requires LinesOf(f, header, rows).Success? && f.header
    ensures LinesOf(f, header, rows).value ==
      Assemble(f.topBorder, f.headerSepline, f.bottomBorder, SeplineOf(f, header.value),
               [CellLine(f, header.value)], DataSection(f, AllOk(rows).value))
  {
  }

  /** The lines of `g`, which has `f`'s style and frame but no header. */
  lemma LinesWithoutHeader(f: Formatting, g: Formatting, header: Result<seq<string>>, rows: seq<Result<seq<string>>>)
    requires LinesOf(f, header, rows).Success? && SameStyle(f, g) && !g.header
    requires g.topBorder == f.topBorder && g.headerSepline == f.headerSepline && g.bottomBorder == f.bottomBorder
    ensures LinesOf(g, header, rows).Success?
    ensures LinesOf(g, header, rows).value ==
      Assemble(f.topBorder, f.headerSepline, f.bottomBorder, SeplineOf(f, header.value), [], DataSection(f, AllOk(rows).value))
  {
    LinesUnder(f, g, header, rows);
  }

  /** Turning `header` off drops the header line and nothing else. */
  lemma HeaderOffLines(f: Formatting, header: Result<seq<string>>, rows: seq<Result<seq<string>>>)
    requires LinesOf(f, header, rows).Success? && f.header
    ensures LinesOf(SetFlag(f, 1, false), header, rows).Success?
    ensures RemovedAt(LinesOf(f, header, rows).value, Flag(f.topBorder), CellLine(f, header.value),
                      LinesOf(SetFlag(f, 1, false), header, rows).value)
  {
    SetFlagFields(f, 1, false);
    HeaderDropped(f, SetFlag(f, 1, false), header, rows);
  }

  // ---------------------------------------------------------------------------------------
  // Characters the lines avoid

  /** A character in no cell, no separator and no border is in none of the lines. */
  ghost predicate Avoided(f: Formatting, header: Result<seq<string>>, rows: seq<Result<seq<string>>>, c: char)
  {
    && c != ' ' && c !in f.valueSep && c !in f.seplineSep && c !in f.seplineChar
    && (header.Success? ==> forall i | 0 <= i < |header.value| :: c !in header.value[i])
    && (forall l | 0 <= l < |rows| && rows[l].Success? :: forall i | 0 <= i < |rows[l].value| :: c !in rows[l].value[i])
  }

  /** A line of cells avoiding `c`, under separators avoiding it, avoids it. */
  lemma CellLineAvoids(f: Formatting, cells: seq<string>, c: char)
    requires c != ' ' && c !in f.valueSep
    requires forall i | 0 <= i < |cells| :: c !in cells[i]
    ensures c !in CellLine(f, cells)
  {
    RepeatAvoids(" ", f.valueSpacing, c);
    JoinAvoids(ValueSeparator(f), cells, c);
  }

  /** The separator line is made of `sepline_char` and `sepline_sep` only. */
  lemma SeplineAvoids(f: Formatting, cells: seq<string>, c: char)
    requires c !in f.seplineSep && c !in f.seplineChar
    ensures c !in SeplineOf(f, cells)
  {
    RepeatAvoids(f.seplineChar, f.valueSpacing, c);
    var segs := SeplineSegments(f, cells);
    forall i | 0 <= i < |segs|
      ensures c !in segs[i]
    {
      RepeatAvoids(f.seplineChar, |cells[i]|, c);
    }
    JoinAvoids(SeplineSeparator(f), segs, c);
  }

  /** Lines that each avoid a character, assembled, still each avoid it. */
  lemma AssembleAvoids(top: bool, mid: bool, bottom: bool, sep: string, header: seq<string>, data: seq<string>, c: char)
    requires c !in sep
    requires forall i | 0 <= i < |header| :: c !in header[i]
    requires forall i | 0 <= i < |data| :: c !in data[i]
    ensures var out := Assemble(top, mid, bottom, sep, header, data);
            forall i | 0 <= i < |out| :: c !in out[i]
  {
    var s1, s2, s3 := Section(top, sep), Section(mid, sep), Section(bottom, sep);
    var out := Assemble(top, mid, bottom, sep, header, data);
    forall i | 0 <= i < |out|
      ensures c !in out[i]
    {
      if i < |s1| {
        assert out[i] == s1[i];
      } else if i < |s1| + |header| {
        assert out[i] == header[i - |s1|];
      } else if i < |s1| + |header| + |s2| {
        assert out[i] == s2[i - |s1| - |header|];
      } else if i < |s1| + |header| + |s2| + |data| {
        assert out[i] == data[i - |s1| - |header| - |s2|];
      } else {
        assert out[i] == s3[i - |s1| - |header| - |s2| - |data|];
      }
    }
  }

  /** A character no cell, separator or border holds is in no line. */
  lemma LinesAvoid(f: Formatting, header: Result<seq<string>>, rows: seq<Result<seq<string>>>, c: char)
    requires LinesOf(f, header, rows).Success? && Avoided(f, header, rows, c)
    ensures forall i | 0 <= i < |LinesOf(f, header, rows).value| :: c !in LinesOf(f, header, rows).value[i]
  {
    AllOkSpec(rows);
    var hc, rc := header.value, AllOk(rows).value;
    SeplineAvoids(f, hc, c);
    CellLineAvoids(f, hc, c);
    var data := DataSection(f, rc);
    forall l | 0 <= l < |data|
      ensures c !in data[l]
    {
      assert rows[l] == Success(rc[l]);
      CellLineAvoids(f, rc[l], c);
    }
    AssembleAvoids(f.topBorder, f.headerSepline, f.bottomBorder, SeplineOf(f, hc), HeaderSection(f, hc), data, c);
  }

  // ---------------------------------------------------------------------------------------
  // Left and right borders

  /** `on` is `off` with `k` more characters at its front (`front`) or at its end. */
  predicate Extended(on: string, off: string, k: nat, front: bool)
  {
    |on| == |off| + k && (if front then on[k..] == off else on[..|off|] == off)
  }

  /** Each line of `on` is the line of `off` at the same place, extended by `k` at that
      side. */
  predicate ExtendedAll(on: seq<string>, off: seq<string>, k: nat, front: bool)
  {
    |on| == |off| && forall i | 0 <= i < |on| :: Extended(on[i], off[i], k, front)
  }

  /** Putting `a` before or after `b` extends `b` by `|a|` at that side. */
  lemma ConcatExtended(a: string, b: string)
    ensures Extended(a + b, b, |a|, true) && Extended(b + a, b, |a|, false)
  {
    assert (a + b)[|a|..] == b;
    assert (b + a)[..|b|] == b;
  }

  /** Lines extended one by one, assembled under the same frame flags, stay extended one
      by one. */
  lemma AssembleExtended(top: bool, mid: bool, bottom: bool, sep1: string, sep2: string,
                         hs1: seq<string>, hs2: seq<string>, d1: seq<string>, d2: seq<string>,
                         k: nat, front: bool)
    requires Extended(sep1, sep2, k, front)
    requires ExtendedAll(hs1, hs2, k, front) && ExtendedAll(d1, d2, k, front)
    ensures ExtendedAll(Assemble(top, mid, bottom, sep1, hs1, d1), Assemble(top, mid, bottom, sep2, hs2, d2), k, front)
  {
    var on, off := Assemble(top, mid, bottom, sep1, hs1, d1), Assemble(top, mid, bottom, sep2, hs2, d2);
    var t1, t2 := Section(top, sep1), Section(top, sep2);
    var m1, m2 := Section(mid, sep1), Section(mid, sep2);
    var b1, b2 := Section(bottom, sep1), Section(bottom, sep2);
    forall i | 0 <= i < |on|
      ensures Extended(on[i], off[i], k, front)
    {
      if i < |t1| {
        assert on[i] == t1[i] && off[i] == t2[i];
      } else if i < |t1| + |hs1| {
        assert on[i] == hs1[i - |t1|] && off[i] == hs2[i - |t1|];
      } else if i < |t1| + |hs1| + |m1| {
        assert on[i] == m1[i - |t1| - |hs1|] && off[i] == m2[i - |t1| - |hs1|];
      } else if i < |t1| + |hs1| + |m1| + |d1| {
        assert on[i] == d1[i - |t1| - |hs1| - |m1|] && off[i] == d2[i - |t1| - |hs1| - |m1|];
      } else {
        assert on[i] == b1[i - |t1| - |hs1| - |m1| - |d1|] && off[i] == b2[i - |t1| - |hs1| - |m1| - |d1|];
      }
    }
  }

  /** The width a left or right border adds to a header or data line. */
  function BorderWidth(f: Formatting): nat
  {
    |f.valueSep| + Max(f.valueSpacing, 0)
  }

  /** `f` with its left (`front`) or right border switched to `b`. */
  function WithSide(f: Formatting, front: bool, b: bool): Formatting
  {
    Formatting(
      header := f.header, headerSepline := f.headerSepline, headerAdjust := f.headerAdjust,
      topBorder := f.topBorder, bottomBorder := f.bottomBorder,
      leftBorder := if front then b else f.leftBorder,
      rightBorder := if front then f.rightBorder else b,
      dataAdjust := f.dataAdjust, dataMinLen := f.dataMinLen, valueSpacing := f.valueSpacing,
      valueSep := f.valueSep, seplineSep := f.seplineSep, seplineChar := f.seplineChar)
  }

  /** Switching a side border changes that border and nothing else. */
  lemma WithSideFields(f: Formatting, front: bool, b: bool)
    ensures var g := WithSide(f, front, b);
            && g.valueSep == f.valueSep && g.valueSpacing == f.valueSpacing
            && g.seplineChar == f.seplineChar && g.seplineSep == f.seplineSep
            && g.leftBorder == (if front then b else f.leftBorder)
            && g.rightBorder == (if front then f.rightBorder else b)
            && g.topBorder == f.topBorder && g.header == f.header
            && g.headerSepline == f.headerSepline && g.bottomBorder == f.bottomBorder
            && g.headerAdjust == f.headerAdjust && g.dataAdjust == f.dataAdjust && g.dataMinLen == f.dataMinLen
  {
  }

  /** Switching one side border on adds that border to a header or data line. */
  lemma CellLineExtended(f: Formatting, front: bool, cells: seq<string>)
    ensures Extended(CellLine(WithSide(f, front, true), cells), CellLine(WithSide(f, front, false), cells),
                     BorderWidth(f), front)
  {
    var on, off := WithSide(f, front, true), WithSide(f, front, false);
    WithSideFields(f, front, true);
    WithSideFields(f, front, false);
    var line := Join(ValueSeparator(f), cells);
    assert ValueSeparator(on) == ValueSeparator(f) == ValueSeparator(off);
    if front {
      var rest := line + RightBorder(off);
      assert CellLine(on, cells) == LeftBorder(on) + rest;
      assert CellLine(off, cells) == rest;
      ConcatExtended(LeftBorder(on), rest);
    } else {
      var rest := LeftBorder(off) + line;
      assert CellLine(on, cells) == rest + RightBorder(on);
      assert CellLine(off, cells) == rest;
      ConcatExtended(RightBorder(on), rest);
    }
  }

  /** Switching one side border on adds the separator line's own border at that side. */
  lemma SeplineOfExtended(f: Formatting, front: bool, cells: seq<string>)
    ensures Extended(SeplineOf(WithSide(f, front, true), cells), SeplineOf(WithSide(f, front, false), cells),
                     |f.seplineSep| + Max(f.valueSpacing, 0) * |f.seplineChar|, front)
  {
    var on, off := WithSide(f, front, true), WithSide(f, front, false);
    WithSideFields(f, front, true);
    WithSideFields(f, front, false);
    var body := Join(SeplineSeparator(f), SeplineSegments(f, cells));
    assert SeplineSeparator(on) == SeplineSeparator(f) == SeplineSeparator(off);
    assert SeplineSegments(on, cells) == SeplineSegments(f, cells) == SeplineSegments(off, cells);
    if front {
      var rest := body + SeplineRight(off);
      assert SeplineOf(on, cells) == SeplineLeft(on) + rest;
      assert SeplineOf(off, cells) == rest;
      ConcatExtended(SeplineLeft(on), rest);
    } else {
      var rest := SeplineLeft(off) + body;
      assert SeplineOf(on, cells) == rest + SeplineRight(on);
      assert SeplineOf(off, cells) == rest;
      ConcatExtended(SeplineRight(on), rest);
    }
  }

  /** The lines of the same cells with one side border on and off, section by section. */
  lemma SideLines(f: Formatting, front: bool, header: Result<seq<string>>, rows: seq<Result<seq<string>>>)
    requires LinesOf(f, header, rows).Success?
    ensures var on, off := WithSide(f, front, true), WithSide(f, front, false);
            var hc, rc := header.value, AllOk(rows).value;
            && LinesOf(on, header, rows).Success? && LinesOf(off, header, rows).Success?
            && LinesOf(on, header, rows).value ==
               Assemble(f.topBorder, f.headerSepline, f.bottomBorder, SeplineOf(on, hc), HeaderSection(on, hc), DataSection(on, rc))
            && LinesOf(off, header, rows).value ==
               Assemble(f.topBorder, f.headerSepline, f.bottomBorder, SeplineOf(off, hc), HeaderSection(off, hc), DataSection(off, rc))
  {
    WithSideFields(f, front, true);
    WithSideFields(f, front, false);
  }

  /** Switching one side border on extends the header section line by line. */
  lemma HeaderSectionExtended(f: Formatting, front: bool, hc: seq<string>)
    ensures ExtendedAll(HeaderSection(WithSide(f, front, true), hc), HeaderSection(WithSide(f, front, false), hc),
                        BorderWidth(f), front)
  {
    WithSideFields(f, front, true);
    WithSideFields(f, front, false);
    CellLineExtended(f, front, hc);
  }

  /** Switching one side border on extends the data section line by line. */
  lemma DataSectionExtended(f: Formatting, front: bool, rc: seq<seq<string>>)
    ensures ExtendedAll(DataSection(WithSide(f, front, true), rc), DataSection(WithSide(f, front, false), rc),
                        BorderWidth(f), front)
  {
    forall l | 0 <= l < |rc|
      ensures Extended(CellLine(WithSide(f, front, true), rc[l]), CellLine(WithSide(f, front, false), rc[l]), BorderWidth(f), front)
    {
      CellLineExtended(f, front, rc[l]);
    }
  }

  /** Switching one side border on adds the same width to every line at that side, when
      `sepline_char` is one character and `sepline_sep` is as long as `value_sep`. */
  lemma SideBorderLines(f: Formatting, front: bool, header: Result<seq<string>>, rows: seq<Result<seq<string>>>)
    requires LinesOf(f, header, rows).Success?
    requires |f.seplineChar| == 1 && |f.seplineSep| == |f.valueSep|
    ensures var on, off := LinesOf(WithSide(f, front, true), header, rows), LinesOf(WithSide(f, front, false), header, rows);
            on.Success? && off.Success? && ExtendedAll(on.value, off.value, BorderWidth(f), front)
  {
    var on, off := WithSide(f, front, true), WithSide(f, front, false);
    var hc, rc := header.value, AllOk(rows).value;
    SideLines(f, front, header, rows);
    SeplineOfExtended(f, front, hc);
    assert |f.seplineSep| + Max(f.valueSpacing, 0) * |f.seplineChar| == BorderWidth(f);
    HeaderSectionExtended(f, front, hc);
    DataSectionExtended(f, front, rc);
    AssembleExtended(f.topBorder, f.headerSepline, f.bottomBorder, SeplineOf(on, hc), SeplineOf(off, hc),
                     HeaderSection(on, hc), HeaderSection(off, hc), DataSection(on, rc), DataSection(off, rc),
                     BorderWidth(f), front);
  }
}
