# fonts-lib in Dafny

A model of the logic inside fonts-lib, a React font picker that loads
Google Fonts into a page. Four parts of the library are modelled:

- **The font driver** (`src/GoogleFonts/driver/index.js`). It derives a font id from a
  family name and a style-element key from the id, the preview flag and the
  variants. It builds the stylesheet request and splits the returned CSS
  into `@font-face` blocks, keyed by the id of each block's quoted
  `font-family`. It also includes `loadFonts`, which reserves an empty `<style>`
  element for every font not loaded yet, fetches once, and fills each
  reserved element at most once. For preview loads it appends one rule
  per font to a shared, append-only preview sheet.
  - The document is a class holding a map from element id to text content.
  - The preview sheet is a class holding its text.
  - `loadFonts` is a method with loops, proved against a specification
    function `LoadFontsSpec`. The lemmas about it state what the source
    promises: no fetch when everything is loaded, placeholders before the
    fetch, write-once, existing elements untouched, and an append-only
    preview sheet.
- **The Google Fonts panel** (`src/GoogleFonts/GoogleFonts.js`). Covered:
  - catalog normalisation;
  - the recently-used list;
  - the case-insensitive search;
  - the recent-first merge that keeps one font per id (`uniqBy`);
  - the loading effect, a method on a `FontPanel` class;
  - the viewport scheduler `loadPreview`, which tracks a cursor and the last
    preview flag and hands slices of the list to the preview loader.
- **The link-URL builder** (`src/libs/create-link-url.js`). It drops web-safe
  fonts, writes `Family+Name:v1,v2` entries joined with `|`, and wraps them
  in the Google Fonts address. It yields `""` when no font remains.
- **The header rules** (`src/Header.js`). Covered: the sort-order action, the
  search line taken from the search box, the tab click, and the order
  button's active flag.

Files:

- `text.dfy`: the JavaScript string operations the code relies on. These are
  `\s` and `trim` whitespace, `toLowerCase`, run replacement by a regular
  expression, `join`, `split`, `indexOf` and `includes`.
- `fonts.dfy`: the `Font` record, `Option`, `filter` and `join('')`.
- `driver.dfy`, `googlefonts.dfy`, `linkurl.dfy` and `header.dfy`: one
  module per source file.

Inputs the program takes from outside are parameters of the model:

- the text of the stylesheet response (`""` when the fetch fails);
- the catalog response (`None` when it fails);
- the web-safe font list `listForFontsLib`;
- the value of the search box.

Behaviour of the code that the model keeps as it is:

- Element keys join the variants in the order given
  (`Driver.VariantOrderMatters`).
- The accepted sort orders are `alpha`, `date`, `popularity`, `style` and
  `trending` (`Header.HandleOrderAction`).
- A font counts as loaded once its element exists, even if the element is
  empty. A failed load is therefore never retried: the placeholder stays
  empty for good (`Driver.LoadTwiceIsNoop`).
- A response with an `@font-face` block that has no quoted `font-family`
  makes `fontFamily[1]` throw, so `loadFonts` rejects after the
  placeholders are made. The model gives an extraction result of `None`,
  which stops the load exactly like an empty response.
- The search line's length test counts UTF-16 code units, as `.length`
  does (`Header.SearchLineCountsCodeUnits`).
- The preview loader acts only when the stop index is strictly above the
  cursor, so the single row of a one-row list is never previewed
  (`GoogleFonts.SingleRowNeverPreviewed`).

## Model

| member | source | states |
|---|---|---|
| Text.ToLower | src/GoogleFonts/driver/index.js:21 | `toLowerCase` keeps the length and lower-cases every character in place |
| Text.ReplaceRuns | src/GoogleFonts/driver/index.js:21 | `replace(/x+/g, c)` never lengthens the string, and no `x` character survives when `c` is not one |
| Text.ReplaceRunsBetween | src/libs/create-link-url.js:19 | a run between two run-free pieces, however long, becomes exactly one replacement character |
| Text.LowerReplaceRunsCommute | src/GoogleFonts/driver/index.js:21 | lower-casing before or after replacing whitespace runs gives the same string |
| Text.Utf16Length | src/Header.js:131 | `.length` counts one unit per character, two for a character outside the Basic Multilingual Plane |
| Text.Trim | src/Header.js:131 | `trim` yields the piece of the input left when all leading and all trailing whitespace is removed; it neither starts nor ends with whitespace |
| Text.TrimIdempotent | src/Header.js:131 | trimming twice is trimming once |
| Text.PaddedTrim | src/Header.js:131 | whitespace before and after a string, each of any length, does not change its trim |
| Text.TrimOfPadded | src/Header.js:131 | the trim of whitespace, a piece with non-space ends, and whitespace is exactly that piece |
| Text.Join | src/GoogleFonts/driver/index.js:35 | `join` of a single piece is that piece; `SplitJoin` and `JoinSplit` relate it to `split` |
| Text.IndexOf | src/GoogleFonts/driver/index.js:125-127 | `indexOf` gives the first occurrence, or -1 exactly when there is none |
| Text.SplitJoin | src/GoogleFonts/driver/index.js:73 | splitting a `join` on its separator gives the pieces back when no piece holds the separator |
| Text.JoinSplit | src/GoogleFonts/driver/index.js:73 | joining the pieces of a `split` gives the string back |
| Fonts.Filter | src/GoogleFonts/driver/index.js:191-197 | `filter` keeps exactly the elements that pass, and never adds any |
| Fonts.FilterAppend | src/GoogleFonts/GoogleFonts.js:118 | `filter` keeps the input order: it distributes over concatenation |
| Driver.FontId | src/GoogleFonts/driver/index.js:20-22 | a font id has no whitespace and no upper-case letter, and is no longer than the family |
| Driver.FontIdIgnoresCase | src/GoogleFonts/driver/index.js:20-22 | families that differ only in letter case get the same id |
| Driver.FontIdIdempotent | src/GoogleFonts/driver/index.js:20-22 | the id of an id is the id itself |
| Driver.FontIdOpenSans | src/GoogleFonts/driver/index.js:21 | `Open Sans` has the id `open-sans` |
| Driver.FontIdSpaceRun | src/GoogleFonts/driver/index.js:21 | a run of several spaces becomes a single `-` |
| Driver.ElementKey | src/GoogleFonts/driver/index.js:30-36 | a style-element key starts with the font id |
| Driver.PreviewKeyDiffers | src/GoogleFonts/driver/index.js:30-36 | for the same id and variants, the preview key and the full key always differ |
| Driver.VariantOrderMatters | src/GoogleFonts/driver/index.js:35 | variants are joined in the order given, so reordering them gives another key |
| Driver.PreferredVariant | src/GoogleFonts/driver/index.js:67-71 | picks `regular` exactly when it is present, else the first variant, else `""` |
| Driver.StylesheetParams | src/GoogleFonts/driver/index.js:64-82 | the request carries `family` first, `text` only for previews, and `font-display=swap` last |
| Driver.StylesheetFamiliesInOrder | src/GoogleFonts/driver/index.js:65-73 | splitting the family parameter on `\|` gives each font's `family:variant`, in request order |
| Driver.FindClose | src/GoogleFonts/driver/index.js:6 | the lazy `[\s\S]*?}` stops at the first `}`, or finds none |
| Driver.FontFaceBlocks | src/GoogleFonts/driver/index.js:6 | every match starts with `@font-face {`, ends with `}` and has no `}` before its end |
| Driver.ScanRendered | src/GoogleFonts/driver/index.js:158 | a stylesheet written as `@font-face` blocks is split into exactly those blocks, in order |
| Driver.FindQuoteOrLineEnd | src/GoogleFonts/driver/index.js:7 | the capture `(.*?)` stops at the first quote and cannot cross a line end |
| Driver.CaptureAt | src/GoogleFonts/driver/index.js:7 | a captured name holds no quote and no line terminator |
| Driver.QuotedFamily | src/GoogleFonts/driver/index.js:7 | a captured family holds no quote and no line terminator |
| Driver.QuotedFamilyOfDecl | src/GoogleFonts/driver/index.js:161 | the quoted name after the first `font-family: ` is the family extracted from a block |
| Driver.Keyed | src/GoogleFonts/driver/index.js:160-165 | a block is keyed exactly when it has a quoted family; the entry holds the block itself under an id without whitespace |
| Driver.KeyBlocksFails | src/GoogleFonts/driver/index.js:160-165 | extraction fails exactly when some block has no quoted family |
| Driver.KeyBlocksEntries | src/GoogleFonts/driver/index.js:160-165 | otherwise there is one entry per block, in order, keyed by the id of the block's family |
| Driver.ExtractFontStyles | src/GoogleFonts/driver/index.js:156-168 | on success there is one entry per `@font-face` block, holding that block, in source order |
| Driver.StylesFor | src/GoogleFonts/driver/index.js:213-219 | a font id that no entry carries gets `""` |
| Driver.StylesForIsJoin | src/GoogleFonts/driver/index.js:213-219 | a font's styles are the rules of the entries with its id, filtered, mapped and joined with `''` in response order |
| Driver.StylesForNonEmpty | src/GoogleFonts/driver/index.js:213-219 | a font whose id carries a non-empty rule gets non-empty styles |
| Driver.WithPlaceholder | src/GoogleFonts/driver/index.js:101-109 | the key gets an empty element only if it had none; every other element is kept |
| Driver.StyleDocument.CreateStylesheet | src/GoogleFonts/driver/index.js:101-109 | the document becomes `WithPlaceholder` of the old document |
| Driver.WithStyles | src/GoogleFonts/driver/index.js:139-149 | only an existing, empty element takes the styles; no element is created and no other changes |
| Driver.StyleDocument.FillStylesheet | src/GoogleFonts/driver/index.js:139-149 | the document becomes `WithStyles` of the old document |
| Driver.WriteOnce | src/GoogleFonts/driver/index.js:146 | once an element has content, a second fill leaves it unchanged |
| Driver.AppendOnce | src/GoogleFonts/driver/index.js:124-130 | the sheet only grows: unchanged if the selector occurs, else the rule appended |
| Driver.AppendOnceHolds | src/GoogleFonts/driver/index.js:124-130 | afterwards the selector occurs in the sheet |
| Driver.PreviewSelector | src/GoogleFonts/driver/index.js:126 | the checked text starts with `#font-item-` and ends with a space |
| Driver.PreviewRule | src/GoogleFonts/driver/index.js:119-123 | the rule holds the checked selector right after its leading line break and tabs |
| Driver.RuleHoldsSelector | src/GoogleFonts/driver/index.js:119-126 | the appended rule contains the selector that is checked for |
| Driver.PreviewSheet.ApplyFontPreview | src/GoogleFonts/driver/index.js:117-131 | the sheet becomes `AppendOnce` of the old sheet, and `#font-item-<id><suffix> ` then occurs in it |
| Driver.PreviewIdempotent | src/GoogleFonts/driver/index.js:117-131 | applying the same preview twice leaves the sheet as one application does |
| Driver.Pending | src/GoogleFonts/driver/index.js:191-197 | a font is pending exactly when it has an id and a family and its element does not exist |
| Driver.PendingKeysAreNew | src/GoogleFonts/driver/index.js:191-197 | no pending font's key names an existing element |
| Driver.KeysAndRulesAt | src/GoogleFonts/driver/index.js:200-222 | position `i` holds font `i`'s key and font `i`'s styles |
| Driver.ReserveAllKeeps | src/GoogleFonts/driver/index.js:200-202 | reserving keeps every element, adds exactly the keys, and every added element is empty |
| Driver.FillAllKeeps | src/GoogleFonts/driver/index.js:211-226 | filling creates no element, never overwrites content, and leaves other keys alone |
| Driver.FillAllAt | src/GoogleFonts/driver/index.js:211-226 | a key that no other position repeats and whose element is empty gets its own styles |
| Driver.FillAllDistinct | src/GoogleFonts/driver/index.js:211-226 | with distinct keys on empty elements, every key gets its own styles |
| Driver.RulesHoldSelectors | src/GoogleFonts/driver/index.js:212 | each font's preview rule contains that font's selector |
| Driver.PreviewAllExtends | src/GoogleFonts/driver/index.js:212 | the preview rules of a load only append to the sheet |
| Driver.PreviewAllHolds | src/GoogleFonts/driver/index.js:212 | after the loop, every selector whose rule carries it occurs in the sheet |
| Driver.PreviewFonts | src/GoogleFonts/driver/index.js:212 | previewing fonts only appends, and leaves every font's selector in the sheet |
| Driver.LoadFontsSpec | src/GoogleFonts/driver/index.js:179-227 | a request is sent exactly when some font is pending; without one nothing changes; a non-preview load never touches the preview sheet |
| Driver.LoadAllPresent | src/GoogleFonts/driver/index.js:191-198 | when every font with an id and a family has an element: no request and no change |
| Driver.LoadReservesBeforeFetch | src/GoogleFonts/driver/index.js:198-203 | otherwise one request names exactly the pending fonts, and every font has an element afterwards, whatever the response |
| Driver.LoadKeepsExisting | src/GoogleFonts/driver/index.js:191-226 | elements that existed before the call keep their content |
| Driver.LoadFailureLeavesPlaceholders | src/GoogleFonts/driver/index.js:203-206 | on a failed fetch the pending fonts' elements exist and are empty, and the preview sheet is unchanged |
| Driver.LoadTwiceIsNoop | src/GoogleFonts/driver/index.js:191-206 | repeating the call, whatever its response, requests nothing and changes nothing |
| Driver.LoadFillsEachFont | src/GoogleFonts/driver/index.js:209-226 | each pending font's element receives exactly the rules that carry its id, in response order |
| Driver.FillAfterReserve | src/GoogleFonts/driver/index.js:200-226 | reserving fresh, distinct keys and then filling them gives each key its own styles |
| Driver.LoadPreviewAppendOnly | src/GoogleFonts/driver/index.js:211-212 | the preview sheet only grows, changes only for preview loads, and then holds every loaded font's selector |
| Driver.LoadFonts | src/GoogleFonts/driver/index.js:179-227 | the document, the preview sheet and the request end as `LoadFontsSpec` of the old state and the response |
| Driver.ReservePlaceholders | src/GoogleFonts/driver/index.js:200-202 | the first loop leaves the document as `ReserveAll` of the old document and the keys |
| Driver.FillPlaceholders | src/GoogleFonts/driver/index.js:211-226 | the second loop leaves the document as `FillAll` and the sheet as `PreviewAll` (previews only) |
| Driver.FillOne | src/GoogleFonts/driver/index.js:211-226 | one round of the second loop extends the handled prefix by one font |
| Driver.PreviewStep | src/GoogleFonts/driver/index.js:212 | one font's preview rule extends the sheet by one `AppendOnce` |
| Driver.FillStep | src/GoogleFonts/driver/index.js:213-225 | one font's fill extends the document by one `WithStyles` |
| GoogleFonts.Normalise | src/GoogleFonts/GoogleFonts.js:103-111 | normalisation gives one font per catalog item |
| GoogleFonts.NormaliseRoundTrip | src/GoogleFonts/GoogleFonts.js:103-111 | dropping the id and renaming `scripts` back gives the catalog itself, in order |
| GoogleFonts.NormaliseIds | src/GoogleFonts/GoogleFonts.js:103-111 | every item keeps its family and gets the id of its family, which has no whitespace |
| GoogleFonts.RecentlyList | src/GoogleFonts/GoogleFonts.js:53-65 | each recent font keeps its id, family and variants, and nothing else |
| GoogleFonts.RecentlyListFlagsLast | src/GoogleFonts/GoogleFonts.js:60 | exactly the last entry is flagged, and nothing when there are no recent fonts |
| GoogleFonts.SearchFilter | src/GoogleFonts/GoogleFonts.js:116-120 | the result is exactly the catalog fonts whose lower-cased family contains the lower-cased line |
| GoogleFonts.SearchKeepsOrder | src/GoogleFonts/GoogleFonts.js:116-120 | the search keeps catalog order |
| GoogleFonts.SearchFindsFamily | src/GoogleFonts/GoogleFonts.js:116-120 | a font's own family, in any letter case, finds it |
| GoogleFonts.FirstWithId | src/GoogleFonts/GoogleFonts.js:123 | the first font with an id is in the list with that id; `None` means the id is absent |
| GoogleFonts.UniqFrom | src/GoogleFonts/GoogleFonts.js:123-126 | `uniqBy` from a set of seen ids never lengthens the list; its meaning is in the lemmas below |
| GoogleFonts.UniqFromIds | src/GoogleFonts/GoogleFonts.js:122-126 | `uniqBy(id)` keeps exactly the ids not yet seen, each once |
| GoogleFonts.UniqFromFirst | src/GoogleFonts/GoogleFonts.js:122-126 | the font kept for an id is the first font with that id |
| GoogleFonts.UniqFromSubsequence | src/GoogleFonts/GoogleFonts.js:122-126 | the kept fonts appear in input order |
| GoogleFonts.UniqById | src/GoogleFonts/GoogleFonts.js:123-126 | `_.uniqBy(font => font.id, ...)` keeps every id exactly once, in input order |
| GoogleFonts.UniqAppend | src/GoogleFonts/GoogleFonts.js:122-126 | earlier fonts win: the later part only adds ids not seen before |
| GoogleFonts.SeenAfterIds | src/GoogleFonts/GoogleFonts.js:122-126 | after walking a list, `uniqBy` has seen exactly the earlier ids plus the list's ids |
| GoogleFonts.UniqOfDistinct | src/GoogleFonts/GoogleFonts.js:122-126 | a list with distinct, new ids passes through unchanged |
| GoogleFonts.RecentFirst | src/GoogleFonts/GoogleFonts.js:122-126 | the merged list is the recent list, then the catalog fonts whose ids are new |
| GoogleFonts.BuildList | src/GoogleFonts/GoogleFonts.js:114-127 | the displayed list is never longer than the recent and catalog fonts together; what it holds is `BuildListShows` |
| GoogleFonts.BuildListShows | src/GoogleFonts/GoogleFonts.js:114-127 | with a search line, exactly the matching fonts are shown; without one, every recent and catalog id exactly once |
| GoogleFonts.FontPanel.constructor | src/GoogleFonts/GoogleFonts.js:67-73 | the panel starts empty and processing, with no catalog and the cursor at 0 |
| GoogleFonts.FontPanel.RefreshList | src/GoogleFonts/GoogleFonts.js:84-145 | fetches only on first use or a new order. A failed catalog sets the warning and leaves the list empty. Otherwise the catalog is normalised, the list rebuilt and the cursor reset |
| GoogleFonts.FontPanel.ShowList | src/GoogleFonts/GoogleFonts.js:114-130 | the list is rebuilt from the held catalog, the cursor is reset and the flags are cleared |
| GoogleFonts.FontPanel.LoadPreview | src/GoogleFonts/GoogleFonts.js:148-169 | the cursor, the last flag and the dispatched rows follow `PreviewStep`; the list and the catalog are untouched |
| GoogleFonts.ResolveIndex | src/GoogleFonts/GoogleFonts.js:156-159 | a `slice` index is clamped to the list |
| GoogleFonts.JsSlice | src/GoogleFonts/GoogleFonts.js:156-159 | a `slice` is never longer than the list |
| GoogleFonts.JsSliceClamps | src/GoogleFonts/GoogleFonts.js:156-159 | a slice past the end stops at the end; an empty or out-of-range slice is empty |
| GoogleFonts.PreviewStep | src/GoogleFonts/GoogleFonts.js:150-166 | a flag switch first resets the cursor to 0; an event whose stop is above that cursor while not processing moves the cursor to the stop and hands rows out exactly when in preview mode; any other event only records the flag and the reset cursor |
| GoogleFonts.SingleRowNeverPreviewed | src/GoogleFonts/GoogleFonts.js:155 | a one-row list has the stop 0, never above the cursor, so its row is never handed to the preview loader |
| GoogleFonts.PreviewSendsFromOldCursor | src/GoogleFonts/GoogleFonts.js:155-165 | an acting event sends the rows from the old cursor through the stop index, inclusive, and moves the cursor there |
| GoogleFonts.PreviewResetsOnFlagChange | src/GoogleFonts/GoogleFonts.js:150-153 | a changed preview flag starts again from row 0 |
| GoogleFonts.PreviewTrace | src/GoogleFonts/GoogleFonts.js:155-166 | stops 10, 25, 25, 40 send rows 0-10, 10-25, nothing, 25-40 |
| GoogleFonts.Schedule | src/GoogleFonts/GoogleFonts.js:155-166 | over a run of events the cursor only rises, to one of the stops |
| GoogleFonts.ScheduleReachesFurthest | src/GoogleFonts/GoogleFonts.js:155-166 | after a run of events the cursor has reached the furthest stop |
| LinkUrl.IsWebSafe | src/libs/create-link-url.js:12-14 | a family is web-safe exactly when some entry of the list has it as its name or its family |
| LinkUrl.GoogleFonts | src/libs/create-link-url.js:9-15 | the fonts kept are exactly those with a non-empty family that is not web-safe, never more than given |
| LinkUrl.FamilyEntry | src/libs/create-link-url.js:19-22 | a non-empty family gives a non-empty entry |
| LinkUrl.Entries | src/libs/create-link-url.js:17-23 | one entry per Google font, in input order |
| LinkUrl.CreateLinkUrl | src/libs/create-link-url.js:8-29 | `""` exactly when every font is unnamed or web-safe; otherwise the base address with `?family=` first and `&display=swap` last |
| LinkUrl.FamiliesEmpty | src/libs/create-link-url.js:28 | the family list is empty exactly when no font qualifies |
| LinkUrl.LinkUrlListsEntries | src/libs/create-link-url.js:17-28 | the address is base, `?family=`, families and `&display=swap`, and splitting the families on `\|` gives each qualifying font's entry in order |
| LinkUrl.LinkUrlExample | src/libs/create-link-url.js:8-29 | Roboto with `400,700`, web-safe Arial and Open Sans give `...css?family=Roboto:400,700\|Open+Sans&display=swap` |
| LinkUrl.ExampleFilter | src/libs/create-link-url.js:9-15 | the web-safe Arial is dropped and the others keep their order |
| LinkUrl.EntryRoboto | src/libs/create-link-url.js:20-22 | variants are appended after `:`, joined with `,` |
| LinkUrl.EntryOpenSans | src/libs/create-link-url.js:19-22 | a space becomes `+`, and no `:` follows when there are no variants |
| LinkUrl.TabIsKept | src/libs/create-link-url.js:19 | only spaces are replaced; a tab stays |
| Header.HandleOrderAction | src/Header.js:147-159 | an empty or non-string action sets nothing; a known order is set as is; any other string sets `popularity` |
| Header.OrderActionIdempotent | src/Header.js:151-156 | selecting the order just selected selects it again |
| Header.UnknownOrderDeactivates | src/Header.js:151-156 | an unknown order falls back to `popularity`, and the order button is then inactive |
| Header.OrderActionActivates | src/Header.js:84 | after a menu action sets an order, the order button is active exactly when the action named an accepted order other than `popularity` |
| Header.SearchLine | src/Header.js:130-134 | a search line exists exactly when the trimmed input is more than 2 UTF-16 code units long, and it is then the trimmed input |
| Header.SearchLineIdempotent | src/Header.js:130-134 | typing a search line in again yields it unchanged |
| Header.SearchLineIgnoresPadding | src/Header.js:131-132 | whitespace before and after the input, each of any length, never changes the search line |
| Header.SearchLineOfPadded | src/Header.js:130-134 | a piece with non-space ends inside whitespace is the search line when longer than 2 code units, else there is none |
| Header.SearchLineCountsCodeUnits | src/Header.js:131-132 | `" a😀 "` yields `"a😀"`: two characters, three code units |
| Header.SearchLineTooShort | src/Header.js:131-133 | `" ab "` yields no search line |
| Header.ClickBound | src/Header.js:116-125 | a string tab name selects the tab, leaves preview mode and clears the search; anything else changes nothing |
| Header.ClickBoundIdempotent | src/Header.js:116-122 | clicking the same tab twice is clicking it once |

## Left out

- Network: `getAllFonts` (src/GoogleFonts/driver/index.js:43-51) and the `fetch` in `getStylesheet` are not modelled. Their results are parameters. A failed stylesheet fetch is the empty response, and a failed or empty catalog is `None` or `[]`. The 5-second timeout has no counterpart.
- Driver.StylesheetParams: states the query parameter values, not the percent-encoded `href` that `URL.searchParams` produces.
- The iframe lookup for `isFrame` (src/GoogleFonts/driver/index.js:186-188) is not modelled. The target document is the `StyleDocument` passed in.
- Timing and concurrency are not modelled: the `async` interleaving of overlapping `loadFonts` calls, the `isMounted` cancellation, the 100 ms `_.delay` before the list is shown, and the 1000 ms `_.debounce` of the search box. GoogleFonts.FontPanel.RefreshList runs the loading effect to completion and sets the list at once.
- GoogleFonts.FontPanel.LoadPreview: returns the rows it hands to the preview loader instead of running that loader. The load itself is `Driver.LoadFonts`.
- Text.ToLower: lower-cases ASCII letters only. JavaScript's full Unicode case mapping, including mappings that change the length, is not modelled.
- Driver.LoadFillsEachFont: requires the pending fonts to have distinct keys. When two pending fonts share a key (the same font listed twice), the first fill wins and the second is ignored, as `WithStyles` states.
- Driver.StylesFor: reads an entry's key as its id. Keys that JavaScript resolves through the object prototype (`constructor`, `toString`, ...) are not modelled.
- Fields a record lacks are not modelled: every `Font` has an id, a family and a list of variants, and a missing id or family is read as `""`. A font without `variants` whose `id` and `family` are both non-empty makes `getIdElement` (src/GoogleFonts/driver/index.js:35) throw inside the pending filter (src/GoogleFonts/driver/index.js:195), so `loadFonts` rejects before creating any placeholder or fetching. The model has no font without variants. The filter's `&&` (src/GoogleFonts/driver/index.js:193-195) skips a font with an empty id or family before `getIdElement` is reached, so a font lacking variants as well is dropped without a throw, as the model drops any font with an empty id or family. `createLinkUrl` reads missing variants as `[]` (src/libs/create-link-url.js:20), and so does the model.
- Rendering and styling are not modelled: src/fonts-lib.js, src/FontItem/FontItem.js, src/WebSafeFonts/WebSafeFonts.js, src/elements.js, and the React components in general.
- src/libs/use-fonts.js is not modelled. It applies the web-safe filter of `createLinkUrl` and calls `loadFonts`.
- Driver.WithPlaceholder: always adds the key, whereas `createStylesheet` attaches its new `<style>` only through `documentFrame.head?.appendChild` (src/GoogleFonts/driver/index.js:107). In a document without a `head` the placeholder is never attached, so `getElementById` misses it, the fill (src/GoogleFonts/driver/index.js:146) writes nothing, and the next call reserves and fetches it again. The model (`Driver.WithPlaceholder`, used by `Driver.StyleDocument.CreateStylesheet`) assumes a document with a `head`.
- Driver.StyleDocument.CreateStylesheet: weaker for a document without a `head`, for the same reason: the method always records the placeholder, which `createStylesheet` would leave detached (src/GoogleFonts/driver/index.js:107).
- `previewFontsStylesheet` is attached to `document.head` when the module loads. A missing `head` is not modelled; the sheet's text is the same either way.
