/** Formatting settings, their defaults, the named layout presets and the constructor's
    explicit overrides. */
module Layouts {
  import opened Wrappers
  import opened Functions

  /** The formatting attributes of a table. */
  datatype Formatting = Formatting(
    header: bool,
    headerSepline: bool,
    headerAdjust: string,
    topBorder: bool,
    bottomBorder: bool,
    leftBorder: bool,
    rightBorder: bool,
    dataAdjust: string,
    dataMinLen: int,
    valueSpacing: int,
    valueSep: string,
    seplineSep: string,
    seplineChar: string)

  /** `_set_formatting_defaults`. */
  function Defaults(): Formatting
  {
    Formatting(
      header := true, headerSepline := true, headerAdjust := "left",
      topBorder := true, bottomBorder := true, leftBorder := true, rightBorder := true,
      dataAdjust := "auto", dataMinLen := 1, valueSpacing := 2,
      valueSep := "|", seplineSep := "+", seplineChar := "-")
  }

  /** The layouts, one per `_layout_as_*` method. */
  datatype Layout = Csv | Default | Grepable | Md | Tsv

  /** The layout names in the order `dir()` lists their methods. */
  const LayoutNames: seq<string> := ["csv", "default", "grepable", "md", "tsv"]

  function LayoutName(l: Layout): string
  {
    match l
    case Csv => "csv"
    case Default => "default"
    case Grepable => "grepable"
    case Md => "md"
    case Tsv => "tsv"
  }

  /** The layout a name selects; None for a name with no `_layout_as_*` method. */
  function ParseLayout(name: string): (r: Option<Layout>)
    ensures r.Some? <==> name in LayoutNames
    ensures r.Some? ==> LayoutName(r.value) == name
  {
    if name == "csv" then Some(Csv)
    else if name == "default" then Some(Default)
    else if name == "grepable" then Some(Grepable)
    else if name == "md" then Some(Md)
    else if name == "tsv" then Some(Tsv)
    else None
  }

  lemma ParseLayoutName(l: Layout)
    ensures ParseLayout(LayoutName(l)) == Some(l)
  {
  }

  /** `_layout_as_csv`: comma separated, compact, no header separator line, no borders. */
  function AsCsv(f: Formatting): Formatting
  {
    f.(headerSepline := false, headerAdjust := "compact", dataAdjust := "compact",
       valueSep := ",", valueSpacing := 0,
       topBorder := false, bottomBorder := false, leftBorder := false, rightBorder := false)
  }

  /** `_layout_as_tsv`: the csv preset, then a tab separator. */
  function AsTsv(f: Formatting): Formatting
  {
    AsCsv(f).(valueSep := "\t")
  }

  /** `_layout_as_grepable`: the csv preset, then a tab separator and no header. */
  function AsGrepable(f: Formatting): Formatting
  {
    AsCsv(f).(valueSep := "\t", header := false)
  }

  /** `_layout_as_md`: `|` at the separator line's crossings, no bottom border, cells at
      least 3 wide. */
  function AsMd(f: Formatting): Formatting
  {
    f.(seplineSep := "|", bottomBorder := false, dataMinLen := 3)
  }

  /** What selecting a layout does to the formatting; `default` changes nothing. */
  function Preset(l: Layout, f: Formatting): Formatting
  {
    match l
    case Default => f
    case Csv => AsCsv(f)
    case Tsv => AsTsv(f)
    case Grepable => AsGrepable(f)
    case Md => AsMd(f)
  }

  /** The docstring of a layout's `_layout_as_*` method. */
  function LayoutDoc(l: Layout): string
  {
    match l
    case Csv => "comma-separated values with a one-line header."
    case Default => "fixed-width table with data auto-alignment."
    case Grepable => "tab-separated values with no header. Great for CLI output, easily post-processed by cut, grep etc."
    case Md => "for tables inside Markmown(.md) files. Uses the GFM table extension. Ex: README.md on github."
    case Tsv => "tab-separated values with a one-line header."
  }

  /** The layouts in the order `dir()` lists their methods. */
  const AllLayouts: seq<Layout> := [Csv, Default, Grepable, Md, Tsv]

  /** `AllLayouts` and `LayoutNames` list the layouts in the same order. */
  lemma LayoutsInOrder()
    ensures forall i | 0 <= i < |AllLayouts| :: LayoutName(AllLayouts[i]) == LayoutNames[i]
  {
    assert LayoutName(AllLayouts[0]) == LayoutNames[0];
    assert LayoutName(AllLayouts[1]) == LayoutNames[1];
    assert LayoutName(AllLayouts[2]) == LayoutNames[2];
    assert LayoutName(AllLayouts[3]) == LayoutNames[3];
    assert LayoutName(AllLayouts[4]) == LayoutNames[4];
  }

  /** `supported_layouts()`: each layout name with the docstring of its method. */
  function SupportedLayouts(): (r: seq<(string, string)>)
    ensures |r| == |LayoutNames|
    ensures forall i | 0 <= i < |r| :: r[i].0 == LayoutNames[i]
  {
    LayoutsInOrder();
    seq(|AllLayouts|, i requires 0 <= i < |AllLayouts| => (LayoutName(AllLayouts[i]), LayoutDoc(AllLayouts[i])))
  }

  /** Every listed layout is one the layout setter accepts. */
  lemma SupportedLayoutsAccepted()
    ensures forall i | 0 <= i < |SupportedLayouts()| :: ParseLayout(SupportedLayouts()[i].0).Some?
  {
    forall i | 0 <= i < |SupportedLayouts()|
      ensures ParseLayout(SupportedLayouts()[i].0).Some?
    {
      ParseLayoutName(AllLayouts[i]);
    }
  }

  /** The position of a layout in `AllLayouts`. */
  function LayoutIndex(l: Layout): (i: nat)
    ensures i < |AllLayouts| && AllLayouts[i] == l
  {
    match l case Csv => 0 case Default => 1 case Grepable => 2 case Md => 3 case Tsv => 4
  }

  /** The entry at position `i` of `supported_layouts()`. */
  lemma SupportedAt(i: nat)
    requires i < |AllLayouts|
    ensures SupportedLayouts()[i] == (LayoutName(AllLayouts[i]), LayoutDoc(AllLayouts[i]))
  {
  }

  /** Every layout is listed, with its own docstring. */
  lemma SupportedLayoutsComplete(l: Layout)
    ensures LayoutIndex(l) < |SupportedLayouts()| && SupportedLayouts()[LayoutIndex(l)] == (LayoutName(l), LayoutDoc(l))
  {
    SupportedAt(LayoutIndex(l));
  }

  /** A preset sets the same values whatever the formatting was before, and keeps every
      field it does not name. */
  lemma PresetFields(l: Layout, f: Formatting)
    ensures l == Default ==> Preset(l, f) == f
    ensures l == Md ==> Preset(l, f) == f.(seplineSep := "|", bottomBorder := false, dataMinLen := 3)
    ensures (l == Csv || l == Tsv || l == Grepable) ==>
      var p := Preset(l, f);
      && !p.headerSepline && p.headerAdjust == "compact" && p.dataAdjust == "compact"
      && p.valueSpacing == 0 && !p.topBorder && !p.bottomBorder && !p.leftBorder && !p.rightBorder
      && p.valueSep == (if l == Csv then "," else "\t")
      && p.header == (l != Grepable && f.header)
      && p.dataMinLen == f.dataMinLen && p.seplineSep == f.seplineSep && p.seplineChar == f.seplineChar
  {
  }

  /** Selecting the same layout twice is the same as selecting it once. */
  lemma PresetIdempotent(l: Layout, f: Formatting)
    ensures Preset(l, Preset(l, f)) == Preset(l, f)
  {
  }

  /** The constructor's optional formatting arguments; None keeps the layout's value. */
  datatype Overrides = Overrides(
    header: Option<bool>,
    headerSepline: Option<bool>,
    headerAdjust: Option<string>,
    topBorder: Option<bool>,
    bottomBorder: Option<bool>,
    leftBorder: Option<bool>,
    rightBorder: Option<bool>,
    dataAdjust: Option<string>,
    dataMinLen: Option<int>,
    valueSpacing: Option<int>,
    valueSep: Option<string>,
    seplineSep: Option<string>,
    seplineChar: Option<string>)

  const NoOverrides := Overrides(None, None, None, None, None, None, None, None, None, None, None, None, None)

  /** `coalesce(x, current)` with a present current value: the explicit argument when
      present, the current value otherwise. */
  function Pick<T>(x: Option<T>, current: T): T
  {
    if x.Some? then x.value else current
  }

  /** `Pick` is `coalesce` applied to the argument and the current value. */
  lemma PickCoalesces<T>(x: Option<T>, current: T)
    ensures Coalesce([x, Some(current)]) == Some(Pick(x, current))
  {
    CoalescePair(x, current);
  }

  /** `self.x = coalesce(x, self.x)` for every formatting argument. */
  function Override(f: Formatting, o: Overrides): Formatting
  {
    Formatting(
      header := Pick(o.header, f.header),
      headerSepline := Pick(o.headerSepline, f.headerSepline),
      headerAdjust := Pick(o.headerAdjust, f.headerAdjust),
      topBorder := Pick(o.topBorder, f.topBorder),
      bottomBorder := Pick(o.bottomBorder, f.bottomBorder),
      leftBorder := Pick(o.leftBorder, f.leftBorder),
      rightBorder := Pick(o.rightBorder, f.rightBorder),
      dataAdjust := Pick(o.dataAdjust, f.dataAdjust),
      dataMinLen := Pick(o.dataMinLen, f.dataMinLen),
      valueSpacing := Pick(o.valueSpacing, f.valueSpacing),
      valueSep := Pick(o.valueSep, f.valueSep),
      seplineSep := Pick(o.seplineSep, f.seplineSep),
      seplineChar := Pick(o.seplineChar, f.seplineChar))
  }

  /** An explicit argument wins over the layout's value; an omitted one keeps it. */
  lemma OverrideWins(f: Formatting, o: Overrides)
    ensures var g := Override(f, o);
      && g.header == (if o.header.Some? then o.header.value else f.header)
      && g.headerSepline == (if o.headerSepline.Some? then o.headerSepline.value else f.headerSepline)
      && g.headerAdjust == (if o.headerAdjust.Some? then o.headerAdjust.value else f.headerAdjust)
      && g.topBorder == (if o.topBorder.Some? then o.topBorder.value else f.topBorder)
      && g.bottomBorder == (if o.bottomBorder.Some? then o.bottomBorder.value else f.bottomBorder)
      && g.leftBorder == (if o.leftBorder.Some? then o.leftBorder.value else f.leftBorder)
      && g.rightBorder == (if o.rightBorder.Some? then o.rightBorder.value else f.rightBorder)
      && g.dataAdjust == (if o.dataAdjust.Some? then o.dataAdjust.value else f.dataAdjust)
      && g.dataMinLen == (if o.dataMinLen.Some? then o.dataMinLen.value else f.dataMinLen)
      && g.valueSpacing == (if o.valueSpacing.Some? then o.valueSpacing.value else f.valueSpacing)
      && g.valueSep == (if o.valueSep.Some? then o.valueSep.value else f.valueSep)
      && g.seplineSep == (if o.seplineSep.Some? then o.seplineSep.value else f.seplineSep)
      && g.seplineChar == (if o.seplineChar.Some? then o.seplineChar.value else f.seplineChar)
  {
  }

  /** With no explicit argument the layout's formatting is kept as it is. */
  lemma NoOverridesKeep(f: Formatting)
    ensures Override(f, NoOverrides) == f
  {
  }
}
