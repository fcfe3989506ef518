# NiceTable in Dafny

A model of `NiceTable`, the small in-memory table at the heart of the `nicetable` package,
and of the `coalesce` helper it uses. A `NiceTable` has thirteen formatting attributes, a
layout name and a row store. The row store holds one list of values per column, plus the
running statistics `append` keeps for each column: the width, the digits before the point
and the digits after the point. `str()` of the table renders it as text in a fixed order:

1. top border;
2. header;
3. header separator line;
4. one line per row;
5. bottom border.

The model has three layers.

- **Value layer** (`Wrappers`, `Functions`, `Strings`, `Values`, `Cells`, `Layouts`).
  - Python's exceptions become a `Result`/`Outcome` carrying `TypeError`, `ValueError` or
    `IndexError`.
  - `coalesce` is a function on a sequence of options.
  - The `str` methods the class uses are functions on `seq<char>`: `ljust`, `rjust`,
    `center`, `strip`, `join`, `find` and `splitlines`.
  - A number is its decimal text: sign, whole digits and optional fraction digits.
  - `_formatted_element` is a total function that returns a ValueError for an unknown
    adjustment.
  - The five layout presets are functions on the `Formatting` record.
- **Table layer** (`Tables`, `Lines`, `Render`).
  - `Table` is the whole state of one object as a value.
  - `AppendRow` is what `append` does to it, including the partial update left behind when
    a cell raises part way through a row.
  - `AdjustColumn` and `ColumnOf` are `set_col_adjust` and `get_column`.
  - `Lines` builds the output from formatted cells alone: the separators, the borders, the
    header, separator and data lines, and their order under the four frame flags.
  - `OutLines` and `ToStr` are the line generators and `__str__`, applied to a table's
    cells.
- **Object layer** (`NiceTableClass`).
  - The class `NiceTable` has the object's attributes as fields. The thirteen formatting
    attributes are grouped in one field `fmt` of the record type `Formatting`.
  - Its methods (`New`, `SetLayout`, the presets, `Append`, `SetColAdjust`) update those
    fields in place, loops included.
  - Each method is proved to leave the state the table layer describes.
  - Its functions `GetColumn` and `ToString` read the state.

## Model

| member | source | states |
|---|---|---|
| Functions.Coalesce | nicetable/functions.py:4-6 | The result is None exactly when every argument is None (or there is none); otherwise it is an argument, and every argument before it is None. |
| Functions.CoalesceFirst | nicetable/functions.py:6 | A non-None first argument is returned whatever follows. |
| Functions.CoalesceAllNone | nicetable/functions.py:6 | All-None arguments give None. |
| Functions.CoalesceAppend | nicetable/functions.py:6 | Arguments after the first non-None one never affect the result; if a prefix is all None, the result is that of the rest. |
| Functions.CoalesceIsAnArgument | nicetable/functions.py:6 | The result is None or one of the arguments. |
| Strings.Repeat | nicetable/nicetable.py:176 | `s * n` has length `max(n,0)*len(s)`: empty for a zero or negative `n`. |
| Strings.RepeatOne | nicetable/nicetable.py:227 | A one-character `s` repeated is that character throughout. |
| Strings.SpacesOnly | nicetable/nicetable.py:176 | `" " * n` holds nothing but spaces. |
| Strings.LJust | nicetable/nicetable.py:194 | `ljust(w)` has length `max(len, w)`: the text first, then spaces; never truncated. |
| Strings.RJust | nicetable/nicetable.py:190 | `rjust(w)` has length `max(len, w)`: spaces, then the text last. |
| Strings.Center | nicetable/nicetable.py:192 | `center(w)` has length `max(len, w)`: the text after `CenterLeftPad` spaces, then spaces. |
| Strings.CenterLeftPad | nicetable/nicetable.py:192 | The left margin is zero when there is no room, and otherwise within one of half the margin. |
| Strings.CenterOddMargin | nicetable/nicetable.py:192 | With an odd margin, the extra space is on the left when the text length is even and on the right when it is odd (Python's `m/2 + (m & w & 1)`). |
| Strings.CenterEvenMargin | nicetable/nicetable.py:192 | With an even margin, both sides get the same padding. |
| Strings.Strip | nicetable/nicetable.py:76 | `s.strip()`: the text without its leading and trailing whitespace (the characters `IsWhitespace` lists), never longer than `s`; `StripPadded` and `TrimRightAfterWhitespace` state what it gives on a cell. |
| Strings.PaddedAvoids | nicetable/nicetable.py:189-202 | Space padding brings in no character other than the space. |
| Strings.StripPadded | nicetable/nicetable.py:76 | Stripping a space-padded text gives the stripped text: padding never counts. |
| Strings.TrimRightAfterWhitespace | nicetable/nicetable.py:76 | Trailing-whitespace removal keeps leading whitespace when something else remains. |
| Strings.Find | nicetable/nicetable.py:81 | `find` gives -1 exactly when the character is absent; otherwise it gives its first position. |
| Strings.FindAfter | nicetable/nicetable.py:81 | A prefix without the character shifts `find` by its length. |
| Strings.Join | nicetable/nicetable.py:221 | `sep.join(parts)`, with no contract of its own: empty for no parts, the part itself for one, the parts with `sep` between them otherwise; `JoinSameShape` states its length and `SplitJoinedLines` its inverse. |
| Strings.JoinSameShape | nicetable/nicetable.py:230 | Joins of equally long separators over equally long parts are equally long. |
| Strings.SplitLines | nicetable/test_nicetable.py:18 | `s.splitlines()` for text whose only line break is `\n`, with no contract of its own; `SplitJoinedLines` proves it gives back the lines of a newline join with a final newline. |
| Strings.SplitJoinedLines | nicetable/nicetable.py:172 | `splitlines` of newline-free lines joined by newline, plus a trailing newline, gives the lines back. |
| Values.FractionTo | nicetable/nicetable.py:197 | The fraction digits brought to exactly `n` digits: zero-padded when shorter, cut when longer. |
| Values.Str | nicetable/nicetable.py:80 | `str(value)`, with no contract of its own: a text as itself, a number as its sign and whole digits, then `.` and the fraction for a float; `DotInStr` and `NumeralText` state its shape. |
| Values.FixedPoint | nicetable/nicetable.py:197 | The `.nf` form has no point when `n` is 0; otherwise its point sits exactly `n` characters from the end. |
| Values.DotInStr | nicetable/nicetable.py:80-86 | In `str()` of a number, `find('.')` is -1 for an integer; otherwise it is the length of the sign and whole part, and the part after it is the fraction. |
| Values.FixedPointExtendsStr | nicetable/nicetable.py:197 | When the column has at least as many decimals as the value, the fixed-point form is `str()` of the value (plus a point) followed by zeros. |
| Values.PointsLineUp | nicetable/nicetable.py:197 | Right-justified fixed-point numbers with the same decimals put their point at the same column. |
| Values.NumeralText | nicetable/nicetable.py:197 | Every character of a number's `str` and fixed-point forms is a digit, a sign or a point. |
| Cells.ParseAdjust | nicetable/nicetable.py:184 | An adjustment is accepted exactly when it is one of `_ADJUST_OPTIONS`. |
| Cells.ParseAdjustName | nicetable/nicetable.py:12 | Every adjustment mode reads back from its name. |
| Cells.JustifyPadded | nicetable/nicetable.py:189-202 | `ljust`, `rjust` and `center` each give the text with spaces around it, at the offset the adjustment's side puts it, `max(len, w)` wide. |
| Cells.Placed | nicetable/nicetable.py:188-202 | The branches of `_formatted_element` for a known adjustment, with no contract of its own: `rjust`, `center` or `ljust` to `max(col_width, data_min_len)`, `auto` as fixed point right-justified for numeric data and left-justified otherwise, `compact` left-justified to `data_min_len`; `PlacedPadded` states the resulting cell. |
| Cells.PlacedPadded | nicetable/nicetable.py:188-203 | The cell of each known adjustment is its text (the fixed-point form for `auto` numeric data) padded to its target width at its side. |
| Cells.FormattedElement | nicetable/nicetable.py:182-203 | A ValueError exactly for an unknown adjustment; otherwise the text is padded to `max(len, target)`. The target is `max(col_width, data_min_len)`, or `data_min_len` for `compact`. The text is placed first, last (`right`, or `auto` on numeric data as fixed point) or centred. |
| Cells.FormattedElementStrip | nicetable/nicetable.py:182-203 | Stripping a formatted cell gives the stripped text it was made from. |
| Cells.FormattedElementAvoids | nicetable/nicetable.py:182-203 | A cell holds nothing besides its value's characters, spaces and numerals. |
| Cells.CenteredNameHeader | nicetable/test_nicetable.py:68-73 | The centred 9-wide `Name` header is three spaces, `Name`, two spaces. |
| Layouts.ParseLayout | nicetable/nicetable.py:113-115 | A layout name is accepted exactly when it is one of the five `_layout_as_*` names. |
| Layouts.ParseLayoutName | nicetable/nicetable.py:113-116 | Every layout reads back from its name. |
| Layouts.Defaults | nicetable/nicetable.py:90-104 | The thirteen default attribute values, with no contract of its own; `DefaultSeparators` and `FreshTableLines` state what they render. |
| Layouts.AsCsv | nicetable/nicetable.py:128-138 | `_layout_as_csv`, with no contract of its own; `PresetFields` states exactly which attributes it sets and that it keeps the others. |
| Layouts.AsTsv | nicetable/nicetable.py:140-143 | `_layout_as_tsv`, the csv preset followed by a tab separator, with no contract of its own; `PresetFields` states its attributes. |
| Layouts.AsGrepable | nicetable/nicetable.py:145-149 | `_layout_as_grepable`, the csv preset followed by a tab separator and no header, with no contract of its own; `PresetFields` states its attributes. |
| Layouts.AsMd | nicetable/nicetable.py:151-157 | `_layout_as_md`, with no contract of its own; `PresetFields` states that it sets exactly `sepline_sep`, `bottom_border` and `data_min_len`. |
| Layouts.Preset | nicetable/nicetable.py:116 | The `_layout_as_*` method a layout calls, `default` changing nothing, with no contract of its own; `PresetFields` and `PresetIdempotent` state its effect. |
| Layouts.SupportedLayouts | nicetable/nicetable.py:119-122 | One entry per layout, named in `dir()` order. |
| Layouts.SupportedLayoutsAccepted | nicetable/nicetable.py:113-122 | Every listed name is accepted by the layout setter. |
| Layouts.SupportedLayoutsComplete | nicetable/nicetable.py:119-122 | Every layout is listed, paired with its own docstring. |
| Layouts.PresetFields | nicetable/nicetable.py:124-157 | `default` changes nothing. `md` sets exactly `sepline_sep`, `bottom_border` and `data_min_len`. csv/tsv/grepable: no header sepline, compact header and data, spacing 0, no borders, `,` or a tab, header off only for grepable, other fields kept. The `md` clause restates `AsMd`'s record update; the independent partner of the presets is `PresetIdempotent`. |
| Layouts.PresetIdempotent | nicetable/nicetable.py:124-157 | Applying a preset twice is the same as applying it once. |
| Layouts.PickCoalesces | nicetable/nicetable.py:31-44 | The value each formatting argument resolves to, `coalesce(x, current)`, is the argument when given and the current value otherwise. |
| Layouts.Override | nicetable/nicetable.py:32-44 | Every formatting attribute becomes `coalesce(argument, current)`, with no contract of its own; `OverrideWins` and `NoOverridesKeep` state its effect. |
| Layouts.OverrideWins | nicetable/nicetable.py:32-44 | Each explicit constructor argument wins over the layout's value, and each omitted one keeps it. This spells out `Override` field by field; its independent partner is `PickCoalesces`, which ties each field's choice to `coalesce`. |
| Layouts.NoOverridesKeep | nicetable/nicetable.py:32-44 | With no explicit argument the formatting is unchanged. |
| Tables.EmptyStore | nicetable/nicetable.py:45-60 | A fresh store is rectangular with zero lines and one column per name: empty lists, no adjustment, widths equal to the names' lengths, zero digits. |
| Tables.FormattedValue | nicetable/nicetable.py:208-209 | `_formatted_value`: the cell under the column's adjustment, or `data_adjust` when none is set, with no contract of its own; `DataCellAdjust` states which adjustment applies. |
| Tables.FormattedColumnName | nicetable/nicetable.py:205-206 | `_formatted_column_name`: the column's name formatted under `header_adjust`, never under the column's own adjustment, with no contract of its own; `HeaderCellsSpec` states the header cells it gives. |
| Tables.DataCellAdjust | nicetable/nicetable.py:208-209 | A data cell uses the column's adjustment when set (it then never fails), and `data_adjust` otherwise. |
| Tables.DigitsOfValue | nicetable/nicetable.py:77-86 | For a number, the left count becomes at least sign plus whole digits, and the right count at least the fraction digits (unchanged for an integer). A text value changes neither. |
| Tables.ProcessColumn | nicetable/nicetable.py:71-86 | One turn of `append`'s loop keeps the table rectangular and its names, adjustments, formatting and `total_lines`; `AppendStatistics` states the new width and digit counts. |
| Tables.Processed | nicetable/nicetable.py:70-88 | The loop over the first `k` columns, stopping at the first failure, keeps the table rectangular and its names, adjustments, formatting and `total_lines`. |
| Tables.AppendRow | nicetable/nicetable.py:62-88 | `append` keeps the table rectangular and its names, adjustments and formatting, whatever the outcome; `AppendRowSpec`, `AppendSucceedsIff` and `AppendAddsRow` state its outcome and new state. |
| Tables.AppendRowSpec | nicetable/nicetable.py:62-88 | A non-list raises TypeError, and an over-long list ValueError, with nothing changed. Otherwise `total_lines` grows by one first, then the loop runs; the first column whose cell cannot be formatted stops it. |
| Tables.AppendSucceedsIff | nicetable/nicetable.py:64-76 | `append` succeeds exactly for a list within the arity whose supplied values all have a known adjustment. |
| Tables.AppendAddsRow | nicetable/nicetable.py:69-75 | A successful append adds exactly one line. Every column gains the supplied value, or `''` past the list. Rectangularity is kept. |
| Tables.AppendStatistics | nicetable/nicetable.py:76-86 | Each supplied column's width becomes the max of the old width and the stripped cell, and its digit counts update from the value. Filled columns keep theirs. |
| Tables.AppendMonotone | nicetable/nicetable.py:62-88 | Whatever the outcome: the table stays valid; names, adjustments and formatting are unchanged; no width or digit count decreases. |
| Tables.WidthAfterIsStrippedText | nicetable/nicetable.py:76 | The recorded width is that of the cell's stripped text, not its padding. |
| Tables.IndexOf | nicetable/nicetable.py:251 | `index` gives None exactly for an absent name, otherwise its first position. |
| Tables.PositionOf | nicetable/nicetable.py:260 | An int position is in range exactly for `-len <= i < len`; negative positions count from the end; otherwise IndexError. |
| Tables.ResolveColumn | nicetable/nicetable.py:246-263 | A name resolves to its first position, or gives ValueError. An int goes through `PositionOf`. Any other key gives TypeError. |
| Tables.ResolveColumnForms | nicetable/nicetable.py:246-251 | A column is reached by its (first) name, by its position and by its negative position alike. |
| Tables.ColumnOf | nicetable/nicetable.py:256-263 | `get_column` succeeds exactly when the key resolves, and otherwise raises that key's exception. |
| Tables.AppendThenColumn | nicetable/nicetable.py:72-75 | After a successful append, every column reads back as before with the row's cell (or `''`) at its end. |
| Tables.AdjustColumn | nicetable/nicetable.py:242-254 | A ValueError for an unknown adjustment comes before the key is looked at; otherwise the key's exception applies. Failure changes nothing, and success keeps the shape. |
| Tables.AdjustColumnEffect | nicetable/nicetable.py:242-254 | Success changes only `col_adjust`, and there only the addressed slot, which becomes `adjust`; every other slot keeps its raw value (set or unset). The addressed column's cells now use `adjust` and never fail. Other columns and all column names format as before. |
| Lines.ValueSeparator | nicetable/nicetable.py:174-176 | The value separator is `value_sep` between two runs of `value_spacing` spaces. |
| Lines.SeplineSeparator | nicetable/nicetable.py:178-180 | The sepline separator is `sepline_sep` between two runs of `value_spacing` sepline characters. |
| Lines.DefaultSeparators | nicetable/nicetable.py:174-180 | With the defaults, these are `"  \|  "` and `"--+--"`. |
| Lines.WrapWithBorders | nicetable/nicetable.py:211-214 | A wrapped line is as long as its two borders and the line. |
| Lines.WrappedLine | nicetable/nicetable.py:211-214 | A wrapped line is the left border, the line unchanged, then the right border. |
| Lines.CellLine | nicetable/nicetable.py:221 | A header or data line: the cells joined by the value separator and wrapped in the borders, with no contract of its own; `WrappedLine` and `SideBorderLines` state its shape. |
| Lines.SeplineSegments | nicetable/nicetable.py:225-227 | One separator segment per column. |
| Lines.SegmentWidths | nicetable/nicetable.py:227 | With a one-character `sepline_char`, each segment is as long as that column's formatted header. |
| Lines.SeplineOf | nicetable/nicetable.py:223-230 | `_generate_sepline` on formatted column names, with no contract of its own; `SeplineWidth` and `Render.SeplineMatchesHeader` state its width. |
| Lines.SeplineWidth | nicetable/nicetable.py:216-230 | With a one-character `sepline_char` and a `sepline_sep` as long as `value_sep`, the separator line of some cells is as long as the line of those cells. |
| Lines.Assemble | nicetable/nicetable.py:160-172 | The output has one line per enabled flag plus the header and data lines. |
| Lines.DataSectionAt | nicetable/nicetable.py:232-240 | Data line `l` is the wrapped, joined line of row `l`'s cells. |
| Lines.AllOkSpec | nicetable/nicetable.py:216-240 | A loop of formatting calls succeeds exactly when every call does, giving their values in order; otherwise it raises what the first failing call raised. |
| Lines.LinesSucceedIff | nicetable/nicetable.py:160-172 | The lines exist exactly when the header cells and every row's cells do; otherwise the error is the header's, or else the first failing row's. |
| Lines.LinesCount | nicetable/nicetable.py:160-172 | One line per row plus one per enabled frame section; row `l`'s line sits right after the enabled top border, header and header separator. |
| Lines.NoRowLines | nicetable/nicetable.py:160-172 | With no rows, the lines are the frame around the header alone. |
| Lines.FullFrameNoRowLines | nicetable/nicetable.py:160-172 | With no rows and all four frame flags on, the lines are sepline, header, sepline, sepline. |
| Lines.TopBorderLines | nicetable/nicetable.py:163-164 | Turning `top_border` on puts exactly the separator line in front of the other lines. |
| Lines.BottomBorderLines | nicetable/nicetable.py:170-171 | Turning `bottom_border` on puts exactly the separator line after the other lines. |
| Lines.HeaderSeplineLines | nicetable/nicetable.py:167-168 | Turning `header_sepline` on inserts exactly the separator line after the top border and the header. |
| Lines.HeaderOffLines | nicetable/nicetable.py:165-166 | Turning `header` off removes exactly the header line, found right after the top border. |
| Lines.LinesAvoid | nicetable/nicetable.py:160-240 | A character that is not a space and is in no cell, separator or border character is in no line. |
| Lines.SideBorderLines | nicetable/nicetable.py:211-230 | Turning a side border on extends every line at that side by `len(value_sep) + value_spacing` characters and keeps the rest, when the separator line lines up. |
| Render.HeaderCellsSpec | nicetable/nicetable.py:216-221 | Header cell `i` is column `i`'s name formatted with `header_adjust`. |
| Render.HeaderCells | nicetable/nicetable.py:216-221 | The header cells exist exactly when there are no columns or `header_adjust` is known (ValueError otherwise). Each is that column's formatted name. |
| Render.HeaderLine | nicetable/nicetable.py:216-221 | The header line fails exactly when a header cell does. |
| Render.Sepline | nicetable/nicetable.py:223-230 | The separator line fails exactly when a header cell does. |
| Render.SeplineMatchesHeader | nicetable/nicetable.py:223-230 | With a one-character `sepline_char` and equally long separators, the separator line is exactly as long as the header line. |
| Render.RowCellsSucceedIff | nicetable/nicetable.py:232-240 | A data line's cells exist exactly when every column holds that line and has a known adjustment. On a rectangular table the failure is ValueError. |
| Render.RowsSucceedIff | nicetable/nicetable.py:232-240 | Every stored row formats exactly when, if there is a row, every column holds `total_lines` values and has a known adjustment. |
| Render.RowsFailWithValueError | nicetable/nicetable.py:232-240 | In a rectangular table the first row that fails to format fails with a ValueError. |
| Render.DataLines | nicetable/nicetable.py:232-240 | `_generate_data_lines`: the rows formatted in order, the first failure ending it, with no contract of its own; `DataLinesSpec` states its lines. |
| Render.DataLinesSpec | nicetable/nicetable.py:232-240 | There is one data line per stored row, data line `l` showing row `l`. |
| Render.RenderSucceedsIff | nicetable/nicetable.py:160-172 | `__str__` succeeds exactly when every shown cell can be formatted. On a rectangular table the only possible error is ValueError. |
| Render.OutLines | nicetable/nicetable.py:160-171 | The list `out` of `__str__` before it is joined, with no contract of its own; `OutLinesSucceedIff`, `OutLinesLayout` and `OutLinesCount` state it. |
| Render.ToStr | nicetable/nicetable.py:160-172 | `__str__`: the lines joined by newlines with a final newline, with no contract of its own; `RenderSucceedsIff` and `RenderSplitsIntoLines` state it. |
| Render.OutLinesSucceedIff | nicetable/nicetable.py:160-172 | The line list exists exactly when the header cells and data lines do; otherwise the error is the first one met. |
| Render.OutLinesLayout | nicetable/nicetable.py:160-172 | The lines, in order: top sepline, header, header sepline, data lines, bottom sepline. |
| Render.OutLinesCount | nicetable/nicetable.py:160-172 | There are as many lines as enabled flags plus `total_lines`, and data line `l` sits right after the enabled top, header and header-sepline lines. |
| Render.TopBorderToggle | nicetable/nicetable.py:163-164 | Turning `top_border` on adds exactly the separator line in front. |
| Render.BottomBorderToggle | nicetable/nicetable.py:170-171 | Turning `bottom_border` on adds exactly the separator line at the end. |
| Render.HeaderSeplineToggle | nicetable/nicetable.py:167-168 | Turning `header_sepline` on inserts the separator line after the top border and header, even with the header off. |
| Render.HeaderToggle | nicetable/nicetable.py:165-166 | Turning `header` off deletes exactly the header line and nothing else. |
| Render.RenderSplitsIntoLines | nicetable/nicetable.py:172 | When no separator or cell text has a newline and some line exists, `str(table).splitlines()` is exactly the generated line list. |
| Render.SideBorderToggle | nicetable/test_nicetable.py:103-115 | Turning the left (right) border on prefixes (suffixes) every line with exactly `len(value_sep) + value_spacing` characters, e.g. `"\|  "`, and keeps the rest. |
| Render.FreshTableLines | nicetable/nicetable.py:160-172 | A new default table renders as sepline, header, sepline, sepline. |
| Render.FullFrameNoRows | nicetable/nicetable.py:160-172 | Any table with no rows and all four frame flags on renders as sepline, header, sepline, sepline. |
| NiceTableClass.NiceTable.Init | nicetable/nicetable.py:30 | The object starts with the default formatting, layout `default` and no columns. |
| NiceTableClass.NiceTable.New | nicetable/nicetable.py:14-60 | `__init__` fails with ValueError exactly for an unknown layout. Otherwise it builds a fresh valid object: the empty store for the names, formatted by the layout preset over the defaults, with the explicit arguments over that. |
| NiceTableClass.NiceTable.SetFormattingDefaults | nicetable/nicetable.py:90-104 | The formatting becomes the thirteen defaults. |
| NiceTableClass.NiceTable.ApplyOverrides | nicetable/nicetable.py:32-44 | The formatting becomes `Override` of the old one. |
| NiceTableClass.NiceTable.ResetStore | nicetable/nicetable.py:45-60 | The loop over the names leaves exactly the empty store for them. |
| NiceTableClass.NiceTable.SetLayout | nicetable/nicetable.py:110-117 | An unknown name gives ValueError with nothing changed. A known one applies its preset and records the name. |
| NiceTableClass.NiceTable.LayoutAsDefault | nicetable/nicetable.py:124-126 | The formatting is unchanged. |
| NiceTableClass.NiceTable.LayoutAsCsv | nicetable/nicetable.py:128-138 | The formatting becomes the csv preset of the old one. |
| NiceTableClass.NiceTable.LayoutAsTsv | nicetable/nicetable.py:140-143 | The formatting becomes the tsv preset of the old one. |
| NiceTableClass.NiceTable.LayoutAsGrepable | nicetable/nicetable.py:145-149 | The formatting becomes the grepable preset of the old one. |
| NiceTableClass.NiceTable.LayoutAsMd | nicetable/nicetable.py:151-157 | The formatting becomes the md preset of the old one. |
| NiceTableClass.NiceTable.Append | nicetable/nicetable.py:62-88 | The in-place loop leaves exactly the state and outcome `AppendRow` describes, and keeps the object valid. |
| NiceTableClass.NiceTable.AppendValues | nicetable/nicetable.py:70-88 | The loop over the columns leaves exactly the state and outcome `Processed` gives for all `total_cols` columns, stopping at the first cell that cannot be formatted. |
| NiceTableClass.NiceTable.AppendToColumn | nicetable/nicetable.py:71-86 | One turn of the loop: as `ProcessColumn` describes. |
| NiceTableClass.NiceTable.CountDigits | nicetable/nicetable.py:77-86 | Only column `i`'s digit counts change, to `LeftDigitsAfter`/`RightDigitsAfter` of the old ones. |
| NiceTableClass.NiceTable.SetColAdjust | nicetable/nicetable.py:242-254 | Leaves exactly the state and outcome `AdjustColumn` describes, and keeps the object valid. |
| NiceTableClass.NiceTable.GetColumn | nicetable/nicetable.py:256-263 | Succeeds exactly when the key resolves, and returns that column's stored list. |
| NiceTableClass.NiceTable.ToString | nicetable/nicetable.py:160-172 | `__str__` succeeds exactly when the table is renderable. |

## Left out

- Values.FixedPoint: the fraction is padded with zeros or cut to `n` digits. Python's `f'{x:.nf}'` rounds the binary float, and float rounding is not modelled. This also changes the widths `append` records (line 76), not only the printed text. Example: with the defaults, a column named `a` and a first row `[9.9]`, Python formats `9.9` with no decimals as `10` and records width 2. The model gives `9` and records width 1, so its header cell is `a` where Python prints `a `.
- Values.Str: a number's `str()` is its sign, whole digits and fraction digits as given. The float forms `1e+20`, `inf` and `nan`, and complex numbers, are not modelled.
- Cell values other than numbers and text: a cell value is either a number or text. Any other Python object (`None`, a list, ...) is stored as the text of its `str()`. So `ColumnOf` and `GetColumn` give `Text("None")` where `get_column` returns the object `None`, and `auto` formats such a value as text, as the source does.
- Number values: a `Num` may have an empty whole part or be an integer `-0`, which no Python `str()` produces. The lemmas cover these extra values as well, and nothing in the model relies on them.
- `bool` values: Python counts them as numbers (and as int column keys). The model has no boolean cell value or key.
- Arguments of the wrong Python type: a formatting attribute holding a non-string, or `data_min_len` holding a non-int, is not modelled. The fields are typed, and the border flags are `bool`, so the `== True` comparisons in lines 212, 213, 228 and 229 become plain tests.
- Reflection: the `dir()`/`getattr` lookup of `_layout_as_*` methods is a fixed enumeration of the five names, in `dir()`'s alphabetical order. `supported_layouts` is a constant table of names and docstrings.
- Attributes assigned directly from outside (for instance `tbl.header_adjust = 'center'`) are not methods of the class. The lemmas reach them with a record update of the snapshot (`WithFlag`, `WithBorder`).
- The `__init__`/constructor split: Dafny's constructor cannot fail, so `__init__` is the static method `New`, which returns a `Result`. Its four steps keep the source's order: defaults, layout, explicit arguments, store.
- The list returned by `get_column` is the internal list object, so mutating it changes the table. The model returns the value and does not capture that aliasing.
- A global equal-line-length claim is not stated. `append` computes widths with the digit counts from before the current value, so a later value with more decimals can make earlier `auto` cells wider than `col_widths`.
- The text of exception messages is not modelled, only their type.
- Strings.Strip: trims the characters for which Python's `str.isspace()` holds, listed explicitly in `IsWhitespace`; no other Unicode normalisation is modelled.
- Strings.SplitLines: splits at `\n` only; Python's `splitlines` also splits at `\r` and other line boundaries. `RenderSplitsIntoLines` therefore requires newline-free text and is stated for `\n` only.
- Render.SeplineMatchesHeader, Render.SideBorderToggle: these need a one-character `sepline_char` and separators of equal length. With other settings the separator line does not line up with the header line, and nothing here claims it does.
- The test file and the demo scripts: the `header` test (lines 36-42), the "should be one of" message tests, `data_none_string` and `set_col_func` all target a later version of the class. In this one, `header = False` keeps the header separator line (`HeaderSeplineToggle`).
- Packaging (`setup.py`) and printing are not part of this model.

## Notes on the source

- With an odd margin, `center` puts the extra space on the left when the text length is even and on the right when it is odd, as Python's `str.center` does (`Strings.CenterOddMargin`).
- The layout selected through `_layout_as_grepable` is named `grepable`; no `grep` layout exists (`Layouts.ParseLayout`).
- In this version, `header = False` removes only the header line and keeps the header separator line (`Render.HeaderToggle`, `Render.HeaderSeplineToggle`). The package's own test (`nicetable/test_nicetable.py`, lines 36-42) expects it to remove two lines.
