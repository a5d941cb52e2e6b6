# jolly launcher core, modelled in Dafny

jolly is a keyboard launcher. The user types into a search box. The
launcher scores every entry of its store (a TOML file of named tables)
against the text and shows the best matches. Choosing one opens a file or
URL, or runs a system command. An entry can carry a keyword: typing the
keyword first makes the entry win, and the rest of the line is put into the
entry's name and target wherever they hold a `%s` placeholder. For an
escaped keyword the text is percent-encoded first.

The model covers:

- how an entry is read from its TOML table;
- the scoring (case policy, keywords, the weakest-token rule);
- the placeholder formatting and what a selection launches;
- the description-to-paragraphs reader;
- the ranked search of the older store module;
- the icon cache and icon lookup;
- the result list's keyboard selection;
- the command-line scanner;
- the UI settings' text-size inheritance;
- the theme reader with its light/dark base.

Each source file is one module:

| module | file |
|---|---|
| `Entry` | entry.rs |
| `Paragraphs` | `desc_to_paragraphs` in entry.rs |
| `Store` | store.rs |
| `Icon` | icon/mod.rs |
| `SearchResults` | search_results.rs |
| `Cli` | cli.rs |
| `Ui` | ui.rs |
| `Theme` | theme.rs |

`Text` holds the string operations the code borrows from Rust's standard
library: whitespace splitting, substring search, split/join/replace and
case mapping. `UrlEncoding` holds the percent-encoding of the
`urlencoding` crate. `EntryExamples` and `StoreExamples` prove the
expected values written in the two modules' unit tests.

Outside effects are parameters:

- **Platform launcher.** `Entry.HandleSelection` takes a function that
  maps a launch request to an optional error.
- **Native icon lookups.** `Icon.LoadIcon` takes a `Platform` record for
  the file-existence test, path canonicalisation and the two per-OS icon
  lookups. The default icon is a parameter too.
- **Desktop light/dark preference.** `Ui.DefaultUI` takes the preference,
  and `Theme` takes it in its `Env`. `Env` also supplies the accent colour
  and the colour parser. Colours are an opaque type parameter.
- **TOML parsing.** It arrives already done: a document is a table of
  (key, value) pairs in the order they are written.

Behaviour of the code worth noting:

- The icon cache compares a `Url` key as its whole string, so two URLs
  with the same scheme are different keys. A `File` key holds a
  `PathBuf` (src/icon/mod.rs:72), whose equality and hash go by path
  components. So `a/b`, `a//b`, `a/./b` and `a/b/` are one key. `./a` and
  `a` are two keys, and `..` is kept as it is, not resolved.
- A cache miss with no worker channel leaves the cache unchanged. It does
  not record a pending lookup (src/icon/mod.rs:131-135), so the next
  request asks again.
- `SearchResults::new` takes `max_results` from the settings, but this
  version of `UISettings` has no such field. The model passes the limit
  as a parameter.
- `UISettings::propagate` also calls `ResultsSettings::propagate`
  (src/ui.rs:71). This version of src/search_results.rs defines no
  `ResultsSettings`. The model gives the results part the same
  inheritance as the search part (src/ui.rs:112-114): an unset text size
  takes the top-level one.

## Model

| member | source | states |
|---|---|---|
| Entry.FromValue | src/entry.rs:118-169 | A non-table value is a bare-key error, and a table that fails to deserialise is a parse error. Giving two or more of location/url/system is the "only one of" error naming the entry. Otherwise the target is the one given (the entry's name when none is), it is a system entry exactly when `system` is set, the keyword is escaped exactly when a url or `escape = true` accompanies it, and missing tags are empty |
| Entry.ParseToRaw | src/entry.rs:118-169 | Reading back the table that describes an entry yields the same entry (round trip) |
| Entry.UrlEntryIsEscapedFile | src/entry.rs:126-155 | A url entry with a keyword opens as a file entry on the url and has an escaped keyword |
| Entry.TokenScore | src/entry.rs:228-237 | The score of one search token is one of the weights 0, 2, 3, 4, 6, 10 |
| Entry.TokenScorePositiveIff | src/entry.rs:228-237 | A token scores above zero exactly when it equals or occurs in the name or some tag |
| Entry.MinScore | src/entry.rs:223-239 | The running minimum is at most its start and every token's score, and equals its start or one of them |
| Entry.Prepare | src/entry.rs:194-208 | The case-adjusted query has one token per whitespace-separated word, and one tag per tag |
| Entry.Score | src/entry.rs:192-241 | The score is one of the weights or 100. Blank text scores 0. Without a keyword it is at most 10. It is 100 exactly when the case-adjusted keyword equals the first token |
| Entry.ScoreIsWeakestToken | src/entry.rs:223-240 | Without a keyword hit, an entry's score is the smallest of its tokens' scores, and some token attains it |
| Entry.ScorePositiveIff | src/entry.rs:210-241 | An entry matches exactly when the text has a token and either the keyword hits or every token matches the name or a tag |
| Entry.Format | src/entry.rs:246-256 | An entry without a keyword leaves the template unchanged; otherwise the result reads the template left to right, writing `%` for each `%%`, the parameter for each `%s` and every other character as it is |
| Entry.PiecesExpand | src/entry.rs:251-255 | Splitting at `%%`, replacing `%s` in each piece and joining with `%` equals that left-to-right reading, for every template and parameter |
| Entry.FormatWithoutPercent | src/entry.rs:246-256 | A template without `%` is returned unchanged |
| Entry.FormatPlaceholderOnlyUnescapes | src/entry.rs:250-255 | Substituting `%s` for itself only turns each `%%` into `%` |
| Entry.FormatPlaceholderIdentity | src/entry.rs:246-256 | With no `%%` in the template, substituting `%s` for itself is the identity |
| Entry.Param | src/entry.rs:259-263 | The parameter is everything after the first whitespace character, or `%s` when the text has none |
| Entry.SelectionParam | src/entry.rs:269-278 | An escaped keyword percent-encodes the parameter; any other keyword passes it unchanged |
| Entry.EscapingInvisibleOnSafeParam | src/entry.rs:275-278 | When the parameter has only unreserved characters, escaped and raw keywords format the same target |
| Entry.SelectionRequest | src/entry.rs:287-292 | A file entry asks to open the formatted target, a system entry to run it |
| Entry.HandleSelection | src/entry.rs:287-294 | Selection succeeds exactly when the platform call does; a platform failure comes back as a platform error |
| Entry.FoldedOne | src/entry.rs:192-241 | On an entry whose keyword does not match, a lower-case single word scores its upper-cased token against the upper-cased name and tags |
| Entry.FoldedTwo | src/entry.rs:192-241 | On such an entry, lower-case text of two words scores the smaller of its two upper-cased token scores |
| EntryExamples.SingleToken | src/entry.rs:194-213 | For lower-case single-word text, the score is the score of its upper-cased token against the upper-cased name and tags |
| EntryExamples.TwoWords | src/entry.rs:223-240 | Lower-case text of two words scores the smaller of their two token scores |
| EntryExamples.TwoTokens | src/entry.rs:223-240 | Two lower-case words joined by a space score the smaller of their two token scores |
| EntryExamples.ScoreTx | src/entry.rs:454 | "tx" is part of the name of "foo.txt": 3 |
| EntryExamples.ScoreFullTagFoo | src/entry.rs:455 | "foo" is a whole tag: 6 |
| EntryExamples.ScoreFullName | src/entry.rs:456 | "foo.txt" is the whole name: 10 |
| EntryExamples.ScoreStartsWithTag | src/entry.rs:458 | "ba" starts a tag: 4 |
| EntryExamples.ScorePartialTag | src/entry.rs:459 | "az" is inside a tag: 2 |
| EntryExamples.ScoreFullTagBaz | src/entry.rs:461 | "baz" is a whole tag: 6 |
| EntryExamples.ScoreBarFo | src/entry.rs:462 | "bar fo" scores its weaker token: 4 |
| EntryExamples.ScoreBarAz | src/entry.rs:463 | "bar az" scores its weaker token: 2 |
| EntryExamples.ScoreEmptyQuery | src/entry.rs:464 | Empty text scores 0 |
| EntryExamples.MixedLiteral | src/entry.rs:194-198 | Text with an upper-case letter is matched case-sensitively against the name and tags as written |
| EntryExamples.MixedFolded | src/entry.rs:194-198 | All-lower-case text is matched with everything upper-cased |
| EntryExamples.MixedFo | src/entry.rs:434 | On "fOO.txt" tagged "FOO", "fo" starts a tag: 4 |
| EntryExamples.MixedUpperFo | src/entry.rs:436 | "FO" starts a tag: 4 |
| EntryExamples.MixedUpperFoo | src/entry.rs:437 | "FOO" is a whole tag: 6 |
| EntryExamples.MixedfO | src/entry.rs:438 | "fO" matches only inside the name as written: 3 |
| EntryExamples.KeywordUnused | src/entry.rs:481 | An entry with keyword "y" scores "fo" normally: 4 |
| EntryExamples.KeywordUsed | src/entry.rs:484 | "y foo" uses the keyword: 100 |
| EntryExamples.FormatUnescapedFor | src/entry.rs:250-255 | With a keyword and no `%%` in the template, formatting is plain replacement of `%s` |
| EntryExamples.FormatAfterEscape | src/entry.rs:250-255 | A leading `%%` becomes `%`, and the rest has its `%s` replaced |
| EntryExamples.FormatTwoPieces | src/entry.rs:250-255 | A template split into two pieces by one `%%` formats as the two substituted pieces around a single `%` |
| EntryExamples.FormatPlaceholderExample | src/entry.rs:665 | "%s" formats to the whole parameter |
| EntryExamples.FormatPlainExamples | src/entry.rs:665-669 | "%s" with "a" gives "a", and with "a a" gives "a a" |
| EntryExamples.FormatTestExample | src/entry.rs:666 | "test %s" with "a" gives "test a" |
| EntryExamples.FormatEscapedExample | src/entry.rs:667 | "%%s" gives the literal "%s", not a substitution |
| EntryExamples.FormatEscapeThenParam | src/entry.rs:668 | "%%%s" with "a" gives "%a" |
| EntryExamples.ParamAfterWord | src/entry.rs:259-263 | After a first word and a space, the parameter is the rest of the line, spaces included |
| EntryExamples.FormatSuffix | src/entry.rs:250-255 | A template ending in its only `%s` formats to its prefix followed by the parameter |
| EntryExamples.KeywordSearch | src/entry.rs:258-285 | For "name:%s" / "file/%s"-shaped entries, the name gets the rest of the line. The target gets it raw for a raw keyword and percent-encoded for an escaped one |
| EntryExamples.RawKeywordPlain | src/entry.rs:626 | Raw keyword: "a b" names the result "name:b" and opens "file/b" |
| EntryExamples.RawKeywordUpper | src/entry.rs:627 | Raw keyword: "a B" gives "name:B" and "file/B", case kept |
| EntryExamples.RawKeywordSpaced | src/entry.rs:628 | Raw keyword: "a b c" names the result "name:b c" and opens "file/b c", the blank kept |
| EntryExamples.EscapedPlainExample | src/entry.rs:629 | Escaped keyword: "a b" gives "file/b" |
| EntryExamples.EscapedSpaceExample | src/entry.rs:630 | Escaped keyword: "a b c" gives "file/b%20c" |
| EntryExamples.EscapedSpaceName | src/entry.rs:630 | Escaped keyword: the name still gets "b c" unencoded |
| Paragraphs.RunBlocks | src/entry.rs:374-403 | Reading a run of flat paragraph or indented-code blocks collects each block's text, in order |
| Paragraphs.AcceptsFlatBlocks | src/entry.rs:368-405 | A description made only of flat paragraphs and indented code blocks reads as their texts |
| Paragraphs.RejectsNestedStart | src/entry.rs:376-380 | A block opened inside another is refused |
| Paragraphs.RejectsOtherTag | src/entry.rs:382-388 | Any block kind other than paragraph or indented code is refused |
| Paragraphs.RejectsMismatchedEnd | src/entry.rs:390-393 | A block closed with a different tag is refused |
| Paragraphs.RejectsStrayEnd | src/entry.rs:390-393 | A close with no open block is refused |
| Paragraphs.RejectsOtherEvent | src/entry.rs:401 | Any other markdown event is refused, inside or outside a block |
| Paragraphs.DropsUnclosedBlock | src/entry.rs:398-404 | A block still open at the end contributes nothing |
| Paragraphs.ParserExamples | src/entry.rs:686-693 | Empty text, one paragraph, a paragraph followed by an indented code block (the reading of the two-line test text under CommonMark) and an indented code block alone all read successfully, giving their texts in order |
| Store.FromValue | src/store.rs:67-93 | A value that does not convert is a parse error. Otherwise `system` makes a system entry, else the location or else the entry's own name is a file target, and missing tags are empty |
| Store.LoadToRaw | src/store.rs:67-93 | Reading back the table that describes an entry yields the same entry |
| Store.Score | src/store.rs:96-116 | The empty query scores 0; no score exceeds a full name plus a full tag |
| Store.ScorePositiveIff | src/store.rs:96-116 | An entry scores above zero exactly when the query is non-empty and occurs in its name or a tag |
| Store.ScoreAll | src/store.rs:127-132 | One score per entry, in order, each the entry's own score |
| Store.RankSpec | src/store.rs:127-140 | The ranking of any scores holds exactly the positions scoring above zero, once each, by non-increasing score, and on a tie the later position first |
| Store.FindMatchesSpec | src/store.rs:125-141 | Given every entry's score, the result holds exactly the matching entries, once each, by descending score, and on a tie the later entry first |
| Store.RankedUnique | src/store.rs:133-137 | Two rankings of the same matches are equal, so the order is fully determined |
| Store.RankingComplete | src/store.rs:127-132 | Every position with a positive score is in the ranking |
| Store.RankingSound | src/store.rs:127-140 | Every match in the ranking carries a position and that position's positive score |
| Store.SortRanked | src/store.rs:133-137 | A stable sort by descending score of matches listed by descending index yields the ranked order |
| Store.ParseStore | src/store.rs:155-168 | Malformed TOML is a parse error, and a non-table document is "Toml is not a Table". Otherwise the store holds the entries in order, or fails with the first entry's error |
| Store.BuildEntries | src/store.rs:162-167 | Collecting succeeds exactly when every entry converts, keeping order. It fails with the first failing entry's error |
| Store.ParseEmpty | src/store.rs:176-179 | An empty document gives an empty store |
| StoreExamples.FindMatchesOfTwo | src/store.rs:125-141 | Over two entries, the result is decided by their two scores alone |
| StoreExamples.TwoEntriesLoad | src/store.rs:203-211 | The two test tables load as "foo" then "asdf" |
| StoreExamples.FindBar | src/store.rs:216 | "bar" ties, so the later "asdf" comes first |
| StoreExamples.FindQuu | src/store.rs:219 | "quu" is a whole tag of "foo" but only part of one of "asdf", so "foo" comes first |
| StoreExamples.FindEmpty | src/store.rs:221 | The empty query finds nothing |
| StoreExamples.ScoreFo | src/store.rs:192 | "fo": partial name plus partial tag |
| StoreExamples.ScoreFoo | src/store.rs:193 | "foo": partial name plus full tag |
| StoreExamples.ScoreFooTxt | src/store.rs:194 | "foo.txt": full name only |
| StoreExamples.ScoreBa | src/store.rs:196 | "ba": partial tag only |
| StoreExamples.ScoreBaz | src/store.rs:197 | "baz": full tag only |
| Icon.LoadIcon | src/icon/mod.rs:76-92 | The icon is the default, the URL lookup's answer, or, for an existing file, the lookup's answer for its canonical path |
| Icon.FileUsesCanonicalPath | src/icon/mod.rs:79-89 | A file icon depends only on existence, the canonical path and the icon found for that path |
| Icon.UnreachableFileIsDefault | src/icon/mod.rs:80-91 | A missing or uncanonicalisable file gets the default icon |
| Icon.FoundIconIsUsed | src/icon/mod.rs:76-92 | An icon that the lookup finds is the one returned |
| Icon.UrlUsesOnlyUrlLookup | src/icon/mod.rs:78 | A URL icon depends only on the URL lookup |
| Icon.Components | src/icon/mod.rs:67-73 | The components a `File` key's path stands for are canonical: the root or the current directory only first, every other component `..` or a non-empty name without `/`, `.` or `..`; they start with the root exactly when the path starts with `/` |
| Icon.DoubledSeparator | src/icon/mod.rs:67-73 | A run of two separators names the same components as one |
| Icon.CurrentDirInside | src/icon/mod.rs:67-73 | A `.` between separators names the same components as no `.` |
| Icon.TrailingSeparator | src/icon/mod.rs:67-73 | A trailing separator after a non-empty path changes no component |
| Icon.ComponentsOfRender | src/icon/mod.rs:67-73 | Every canonical component list, written out as a path, reads back as itself, so the key keeps every component |
| Icon.RenderSeparates | src/icon/mod.rs:67-73 | Different canonical component lists give paths with different keys |
| Icon.KeyOf | src/icon/mod.rs:67-73 | A URL's key is its whole string; a file's key is its path's components; no URL key equals a file key |
| Icon.New | src/icon/mod.rs:117-122 | A new cache has no channel and no entries |
| Icon.Get | src/icon/mod.rs:124-139 | A request whose key is cached, under any spelling, returns its icon or pending and changes nothing. A miss returns nothing: with a channel it sends the request and records its key as pending; without one it changes nothing |
| Icon.AddIcon | src/icon/mod.rs:141-143 | The key now maps to the icon; every other key is unchanged |
| Icon.SetCmd | src/icon/mod.rs:145-147 | The channel is set and the cache untouched |
| Icon.GetAfterAdd | src/icon/mod.rs:124-143 | A key just added is returned from the cache without a request |
| Icon.MissWithoutChannelRetries | src/icon/mod.rs:130-138 | A miss before the worker starts sends nothing, so the same key is requested once the channel exists |
| Icon.SecondGetSendsNothing | src/icon/mod.rs:125-135 | Of two successive lookups with one key, however spelt, at most one sends a request |
| Icon.SpellingsShareEntry | src/icon/mod.rs:124-139 | Once the worker runs, asking for `a/b` sends it, and asking then for `a//b` finds it pending and sends nothing |
| Icon.RunSendsOnce | src/icon/mod.rs:124-147 | In any sequence of operations no two requests sent share a key; each is sent only if its key was not cached, and the key stays cached |
| Icon.AtMostOneRequestPerKey | src/icon/mod.rs:117-147 | Starting from a new cache, no key is ever requested twice, under any spellings |
| SearchResults.New | src/search_results.rs:41-47 | The list is the first `max_results` results, in order, with the first one selected |
| SearchResults.Selected | src/search_results.rs:49-51 | The selected entry is one of the list, the first right after creation |
| SearchResults.HandleKb | src/search_results.rs:53-73 | The list never changes. Other events and keys change nothing. The selection moves by at most one and stays inside the list |
| SearchResults.UpMovesTowardsTop | src/search_results.rs:62-66 | Up moves the selection up one, stopping at the top |
| SearchResults.DownMovesTowardsBottom | src/search_results.rs:67-72 | Down moves the selection down one, stopping at the last entry |
| SearchResults.DownThenUp | src/search_results.rs:62-72 | Away from the bottom, down then up returns to the same state |
| SearchResults.UpThenDown | src/search_results.rs:62-72 | Away from the top, up then down returns to the same state |
| SearchResults.PressManyClamps | src/search_results.rs:62-72 | n presses of down or up move the selection n places, clamped to the list |
| SearchResults.NewThenDown | src/search_results.rs:41-72 | One down press on a fresh list selects the second result |
| Cli.Classify | src/cli.rs:46-60 | An argument is positional exactly when it does not start with a dash |
| Cli.ParseArgs | src/cli.rs:42-71 | The scanning loop computes the reference left-to-right reading |
| Cli.ScanOkIff | src/cli.rs:45-70 | Scanning succeeds exactly when there is at most one argument and it is positional; that argument is the configuration file |
| Cli.ParseOkIff | src/cli.rs:42-71 | The command line parses exactly when at most one argument follows the program name and it does not start with a dash |
| Cli.DecidedPrefix | src/cli.rs:45-69 | Once the scan has stopped, later arguments change nothing |
| Cli.DecidedByFirstTwo | src/cli.rs:45-69 | Only the first two arguments after the program name matter |
| Cli.ProgramNameIgnored | src/cli.rs:45 | The program name is never inspected |
| Cli.ScanExamples | src/cli.rs:46-70 | No arguments, one file, a version flag after a file, two files, and a lone dash give the expected outcomes |
| Ui.TextSize | src/ui.rs:53-58 | The text size is the one set, or 20 |
| Ui.Propagate | src/ui.rs:60-64 | An unset size is taken from the parent; a set one is kept |
| Ui.PropagateIdempotent | src/ui.rs:60-64 | Propagating twice from one parent is propagating once |
| Ui.PropagateUnsetMatchesParent | src/ui.rs:60-64 | After propagation an unset child reports the parent's size |
| Ui.PropagateChoosesOneOfTwo | src/ui.rs:60-64 | After propagation the size is the child's or the parent's |
| Ui.MissingInheritedUsesParent | src/ui.rs:153-165 | An unset child of a parent sized 99 reports 20 before propagation and 99 after |
| Ui.DefaultSearch | src/ui.rs:117-124 | The default search box has padding 10 and no size of its own |
| Ui.DefaultUI | src/ui.rs:75-96 | The default settings have width 800, the desktop's theme, padding 10 and no text sizes set |
| Ui.PropagateUI | src/ui.rs:67-73 | The top-level size flows into the entry, search and result settings; nothing else changes |
| Ui.PropagateUIIdempotent | src/ui.rs:67-73 | Propagating the whole settings twice is propagating once |
| Ui.TopLevelSizeReachesUnsetParts | src/ui.rs:67-73 | A top-level size reaches every part that did not set its own |
| Ui.StartingHeight | src/ui.rs:108-110 | The search box height is the text size plus twice the padding |
| Ui.DefaultStartingHeight | src/ui.rs:108-124 | The default search box is 40 high |
| Ui.StartingHeightMonotone | src/ui.rs:108-110 | A larger text size never gives a smaller box |
| Theme.FromBase | src/theme.rs:178-196 | Light is white on black text with white selected text, and dark is "#202225" with "B3B3B3" text and black selected text; both use the platform accent |
| Theme.ParseBase | src/theme.rs:15-20 | The base reads "light" or "dark" and nothing else |
| Theme.FieldOf | src/theme.rs:96-109 | A key names a colour field exactly when it is that field's name; any other key is ignored |
| Theme.Set | src/theme.rs:118-145 | Setting a colour changes that field and no other |
| Theme.VisitOkIff | src/theme.rs:116-149 | Reading the fields succeeds exactly when no colour field appears twice and every colour value parses |
| Theme.VisitFields | src/theme.rs:111-149 | Each colour is the value given for it, or the base theme's when none is given |
| Theme.UnknownKeysIgnored | src/theme.rs:146 | Unrecognised keys do not affect the result |
| Theme.AllFieldsIndependentOfBase | src/theme.rs:111-149 | When every colour is given, the base does not matter |
| Theme.VisitErrorIndependentOfStart | src/theme.rs:116-148 | A failure does not depend on the starting colours |
| Theme.Deserialize | src/theme.rs:153-175 | A non-table is an error, and a bad "base" is an error. Otherwise the remaining keys are read over the given base, or over the desktop default when none is given |
| Theme.EmptyIsDefault | src/theme.rs:404-407 | An empty table gives the default theme |
| Theme.BaseExamples | src/theme.rs:427-458 | `base = "dark"` and `base = "light"` give those themes, and an accent override changes only the accent |
| Theme.DuplicateExample | src/theme.rs:125-128 | A colour given twice is a duplicate-field error |
| Text.Words | src/entry.rs:208 | Splitting on whitespace gives non-empty, blank-free words, and none exactly when the text is blank |
| Text.WordsLoseOnlyBlanks | src/entry.rs:208 | The words together are the text with its whitespace removed |
| Text.SplitOnceSpace | src/entry.rs:259 | Splitting at the first whitespace character gives a blank-free head, the separator and the rest |
| Text.JoinSplit | src/entry.rs:251-255 | Joining the pieces of a split with the same separator gives back the text |
| Text.ReplaceBySelf | src/entry.rs:253 | Replacing a pattern by itself changes nothing |
| Text.ContainsIffOccurs | src/entry.rs:230-232 | The substring test holds exactly when the query occurs at some position |
| Text.UpperIdempotent | src/entry.rs:194-197 | Upper-casing twice is upper-casing once |
| UrlEncoding.EncodeByte | src/entry.rs:276 | An unreserved byte stays as it is; any other becomes `%` and two hex digits of its value |
| UrlEncoding.DecodeEncode | src/entry.rs:276 | Decoding the encoded text gives back its UTF-8 bytes |
| UrlEncoding.EncodeUnreserved | src/entry.rs:276 | Text of unreserved characters encodes to itself |
| UrlEncoding.EncodeIsUrlSafe | src/entry.rs:276 | The encoding holds only unreserved characters, `%` and hex digits |
| UrlEncoding.EncodeSpaceExample | src/entry.rs:630 | "b c" encodes to "b%20c" |

## Left out

- Icon.Components: Unix path syntax only. Windows drive prefixes and `\` separators are not modelled, and the key does not depend on the file system (no symbolic links, no `..` resolution), just as a `PathBuf` does not.
- Icon.Get: does not model the panic when a request is sent to a worker whose receiving end has gone (`expect` at src/icon/mod.rs:132-133); every send is taken to succeed.
- The icon worker thread, its channels and its one-second delay (src/icon/mod.rs:150-183) are concurrency. The model keeps only the cache side, and a channel is an opaque value.
- The native icon lookups of each platform and the lazily loaded default icon are foreign calls, so they are parameters.
- The OS call that opens a file or runs a command is a foreign call, so it is a parameter of `Entry.HandleSelection`.
- `load_store` reads a file (I/O). The model starts from the parsed document.
- TOML and serde parsing are a library. A document is given as parsed values, in written order. For the older store module a table either converts or carries the converter's message.
- `build_entry`, the `view` functions, the palettes and every other rendering function are UI drawing.
- `EntrySettings::default` rounds `0.8 * text_size` in floating point. Entry settings keep only the inherited text size.
- `selected_color` and the colour values themselves come from a CSS colour parser. Colours are an opaque type parameter.
- `dark_light::detect` queries the desktop, so it is a parameter.
- Unicode case mapping and `to_lowercase` are reduced to ASCII letters. Whitespace is the Unicode White_Space set.
- `SearchResults` equality compares hashes of the list and the selection. The model uses plain structural equality.
- `SearchResults.Selected` requires a non-empty list. The source indexes the list and panics when it is empty.
- `Ui.StartingHeight` requires the 16-bit sum not to overflow. It does not model the debug-build panic or the release-build wrap-around.
- The help and version texts, the error messages on standard error, and the `Display` texts of errors are output only. The exit status is modelled.
- The `max_results` limit of `SearchResults::new` is a parameter, because this version's settings have no such field.
- Duplicate keys in a TOML table are rejected by the TOML parser itself. The theme reader's duplicate-field error is therefore modelled on a key list that may repeat.
