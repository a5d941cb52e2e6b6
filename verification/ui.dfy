/** Window settings with inheritance: a text size set at the top of the
    settings applies to the search box, the result list and the entries
    unless they set their own, and the search box height follows from its
    text size and padding in 16-bit arithmetic. */
module Ui {
  import opened Wrappers

  newtype u16 = x: int | 0 <= x < 0x1_0000
  newtype u32 = x: int | 0 <= x < 0x1_0000_0000

  const DEFAULT_TEXT_SIZE: u16 := 20
  const DEFAULT_WIDTH: u32 := 800
  const DEFAULT_PADDING: u16 := 10

  /** The light or dark base of the window; the default comes from the
      desktop and is a parameter here. */
  datatype UiTheme = Light | Dark

  /** `InheritedSettings`: only the text size is inherited. */
  datatype InheritedSettings = InheritedSettings(textSize: Option<u16>)

  function DefaultInherited(): InheritedSettings {
    InheritedSettings(None)
  }

  /** `InheritedSettings::text_size`: the stored size, or 20 when unset. */
  function TextSize(s: InheritedSettings): (r: u16)
    ensures s.textSize.Some? ==> r == s.textSize.value
    ensures s.textSize.None? ==> r == DEFAULT_TEXT_SIZE
  {
    s.textSize.GetOr(DEFAULT_TEXT_SIZE)
  }

  /** `InheritedSettings::propagate`: an unset size is taken from the
      parent; a set one is kept. */
  function Propagate(child: InheritedSettings, parent: InheritedSettings): (r: InheritedSettings)
    ensures child.textSize.Some? ==> r == child
    ensures child.textSize.None? ==> r.textSize == parent.textSize
  {
    if child.textSize.None? then InheritedSettings(parent.textSize) else child
  }

  /** Propagating twice from the same parent is propagating once. */
  lemma PropagateIdempotent(child: InheritedSettings, parent: InheritedSettings)
    ensures Propagate(Propagate(child, parent), parent) == Propagate(child, parent)
  {
  }

  /** After propagation an unset child reports the parent's text size,
      whether or not the parent set one. */
  lemma PropagateUnsetMatchesParent(child: InheritedSettings, parent: InheritedSettings)
    requires child.textSize.None?
    ensures TextSize(Propagate(child, parent)) == TextSize(parent)
  {
  }

  /** After propagation the size is the child's own or the parent's. */
  lemma PropagateChoosesOneOfTwo(child: InheritedSettings, parent: InheritedSettings)
    ensures TextSize(Propagate(child, parent)) == TextSize(child)
            || TextSize(Propagate(child, parent)) == TextSize(parent)
  {
  }

  /** The example from the launcher's tests: an unset child of a parent with
      size 99 reports 20 before propagation and 99 after. */
  lemma MissingInheritedUsesParent()
    ensures TextSize(DefaultInherited()) != TextSize(InheritedSettings(Some(99)))
    ensures TextSize(Propagate(DefaultInherited(), InheritedSettings(Some(99)))) == 99
  {
  }

  // ----------------------------------------------------- nested settings

  /** `SearchSettings`. */
  datatype SearchSettings = SearchSettings(padding: u16, common: InheritedSettings)

  /** The result list and entry settings, reduced to what they inherit.
      The results module of this version defines no `ResultsSettings`;
      its propagation is taken to be the search part's, an unset text
      size taking the parent's. */
  datatype ResultsSettings = ResultsSettings(common: InheritedSettings)
  datatype EntrySettings = EntrySettings(common: InheritedSettings)

  /** `UISettings`; the selected colour is left out. */
  datatype UISettings = UISettings(
    width: u32,
    theme: UiTheme,
    common: InheritedSettings,
    search: SearchSettings,
    results: ResultsSettings,
    entry: EntrySettings)

  function DefaultSearch(): (r: SearchSettings)
    ensures r.padding == DEFAULT_PADDING && r.common.textSize.None?
  {
    SearchSettings(DEFAULT_PADDING, DefaultInherited())
  }

  /** `UISettings::default`, with the desktop's light or dark preference as
      `theme`. */
  function DefaultUI(theme: UiTheme): (r: UISettings)
    ensures r.width == DEFAULT_WIDTH && r.theme == theme
    ensures r.search.padding == DEFAULT_PADDING
    ensures r.common.textSize.None? && r.search.common.textSize.None?
    ensures r.results.common.textSize.None? && r.entry.common.textSize.None?
  {
    UISettings(DEFAULT_WIDTH, theme, DefaultInherited(), DefaultSearch(),
               ResultsSettings(DefaultInherited()), EntrySettings(DefaultInherited()))
  }

  /** `UISettings::propagate`: the top-level settings flow into the entry,
      search and result settings. */
  function PropagateUI(s: UISettings): (r: UISettings)
    ensures r.width == s.width && r.theme == s.theme && r.common == s.common
    ensures r.search.padding == s.search.padding
    ensures r.search.common == Propagate(s.search.common, s.common)
    ensures r.results.common == Propagate(s.results.common, s.common)
    ensures r.entry.common == Propagate(s.entry.common, s.common)
  {
    s.(entry := EntrySettings(Propagate(s.entry.common, s.common)),
       search := s.search.(common := Propagate(s.search.common, s.common)),
       results := ResultsSettings(Propagate(s.results.common, s.common)))
  }

  /** Propagating the whole settings twice is propagating once. */
  lemma PropagateUIIdempotent(s: UISettings)
    ensures PropagateUI(PropagateUI(s)) == PropagateUI(s)
  {
    PropagateIdempotent(s.search.common, s.common);
    PropagateIdempotent(s.results.common, s.common);
    PropagateIdempotent(s.entry.common, s.common);
  }

  /** After propagation, a top-level text size reaches every part that did
      not set its own. */
  lemma TopLevelSizeReachesUnsetParts(s: UISettings)
    requires s.common.textSize.Some?
    ensures s.search.common.textSize.None? ==> TextSize(PropagateUI(s).search.common) == s.common.textSize.value
    ensures s.results.common.textSize.None? ==> TextSize(PropagateUI(s).results.common) == s.common.textSize.value
    ensures s.entry.common.textSize.None? ==> TextSize(PropagateUI(s).entry.common) == s.common.textSize.value
  {
  }

  // ------------------------------------------------------------- height

  /** `SearchSettings::starting_height`: text size plus padding above and
      below, added in 16 bits and widened to 32. The addition must not
      overflow 16 bits. */
  function StartingHeight(s: SearchSettings): (r: u32)
    requires TextSize(s.common) as int + 2 * s.padding as int < 0x1_0000
    ensures r as int == TextSize(s.common) as int + 2 * s.padding as int
    ensures r as int < 0x1_0000
  {
    var h := TextSize(s.common) + 2 * s.padding;
    h as int as u32
  }

  /** The default search box is 40 high: text size 20 and padding 10. */
  lemma DefaultStartingHeight()
    ensures StartingHeight(DefaultSearch()) == 40
  {
  }

  /** A larger text size makes a taller search box. */
  lemma StartingHeightMonotone(a: SearchSettings, b: SearchSettings)
    requires a.padding == b.padding && TextSize(a.common) <= TextSize(b.common)
    requires TextSize(b.common) as int + 2 * b.padding as int < 0x1_0000
    ensures StartingHeight(a) <= StartingHeight(b)
  {
  }
}
