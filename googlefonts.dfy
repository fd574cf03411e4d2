// The Google Fonts panel: how the displayed list is derived from the
// catalog, the recently used fonts and the search line, the loading effect
// that (re)builds it, and the scheduler that hands rows entering the
// viewport to the preview loader.

module GoogleFonts {
  import opened Text
  import opened Fonts
  import Driver

  // ---------------------------------------------------------------------
  // Catalog normalisation

  /** One item of the catalog response: `family`, `subsets`, `variants`, and the rest. */
  datatype RawFont = RawFont(family: string, subsets: seq<string>, variants: seq<string>, details: map<string, string>)

  /** The body of the catalog `map`: the record with an id added and `subsets` renamed `scripts`. */
  function NormaliseFont(raw: RawFont): Font {
    Font(Driver.FontId(raw.family), raw.family, raw.variants, raw.subsets, raw.details, false)
  }

  function Normalise(catalog: seq<RawFont>): (fonts: seq<Font>)
    ensures |fonts| == |catalog|
    decreases |catalog|
  {
    if catalog == [] then [] else [NormaliseFont(catalog[0])] + Normalise(catalog[1..])
  }

  /** A normalised font with its id dropped and `scripts` renamed back. */
  function Denormalise(font: Font): RawFont {
    RawFont(font.family, font.scripts, font.variants, font.details)
  }

  function DenormaliseAll(fonts: seq<Font>): (catalog: seq<RawFont>)
    ensures |catalog| == |fonts|
    decreases |fonts|
  {
    if fonts == [] then [] else [Denormalise(fonts[0])] + DenormaliseAll(fonts[1..])
  }

  /** Normalisation loses nothing and keeps the catalog order. */
  lemma {:induction false} NormaliseRoundTrip(catalog: seq<RawFont>)
    ensures DenormaliseAll(Normalise(catalog)) == catalog
    decreases |catalog|
  {
    if catalog != [] {
      var fonts := Normalise(catalog);
      assert fonts[1..] == Normalise(catalog[1..]);
      NormaliseRoundTrip(catalog[1..]);
    }
  }

  /** Every normalised font carries the id of its family. */
  lemma {:induction false} NormaliseIds(catalog: seq<RawFont>)
    ensures var fonts := Normalise(catalog);
      forall i :: 0 <= i < |catalog| ==>
        && fonts[i].id == Driver.FontId(catalog[i].family)
        && fonts[i].family == catalog[i].family
        && NoSpace(fonts[i].id)
        && !fonts[i].isLastRecently
    decreases |catalog|
  {
    if catalog != [] {
      NormaliseIds(catalog[1..]);
      var fonts := Normalise(catalog);
      forall i | 1 <= i < |catalog|
        ensures fonts[i] == Normalise(catalog[1..])[i - 1] && catalog[i] == catalog[1..][i - 1]
      {
      }
    }
  }

  // ---------------------------------------------------------------------
  // Recently used fonts

  /** `recentlyList`: id, family and variants of each recent font; only the last one is flagged. */
  function RecentlyList(recent: seq<Font>): (r: seq<Font>)
    ensures |r| == |recent|
    ensures forall i :: 0 <= i < |r| ==>
      && r[i].id == recent[i].id
      && r[i].family == recent[i].family
      && r[i].variants == recent[i].variants
      && r[i].scripts == []
      && r[i].details == map[]
  {
    seq(|recent|, i requires 0 <= i < |recent| => Font(recent[i].id, recent[i].family, recent[i].variants, [], map[], i == |recent| - 1))
  }

  predicate IsLastRecently(f: Font) {
    f.isLastRecently
  }

  /** Exactly one entry, the last, is flagged; an empty history flags nothing. */
  lemma RecentlyListFlagsLast(recent: seq<Font>)
    ensures recent == [] ==> Filter(RecentlyList(recent), IsLastRecently) == []
    ensures recent != [] ==> Filter(RecentlyList(recent), IsLastRecently) == [RecentlyList(recent)[|recent| - 1]]
  {
    var r := RecentlyList(recent);
    if recent != [] {
      FilterSingleMatch(r, |r| - 1, IsLastRecently);
    } else {
      FilterNone(r, IsLastRecently);
    }
  }

  // ---------------------------------------------------------------------
  // Search

  /** The search predicate: the lower-cased family contains the lower-cased line. */
  function MatchesLine(line: string): Font -> bool {
    (f: Font) => Contains(ToLower(f.family), ToLower(line))
  }

  function SearchFilter(catalog: seq<Font>, line: string): (r: seq<Font>)
    ensures forall f :: f in r <==> f in catalog && Contains(ToLower(f.family), ToLower(line))
  {
    Filter(catalog, MatchesLine(line))
  }

  /** The search keeps catalog order. */
  lemma SearchKeepsOrder(a: seq<Font>, b: seq<Font>, line: string)
    ensures SearchFilter(a + b, line) == SearchFilter(a, line) + SearchFilter(b, line)
  {
    FilterAppend(a, b, MatchesLine(line));
  }

  /** Searching for a font's family, in any letter case, finds it. */
  lemma SearchFindsFamily(catalog: seq<Font>, f: Font, line: string)
    requires f in catalog && ToLower(line) == ToLower(f.family)
    ensures f in SearchFilter(catalog, line)
  {
    assert OccursAt(ToLower(f.family), ToLower(line), 0);
  }

  // ---------------------------------------------------------------------
  // `uniqBy` on id

  function Ids(xs: seq<Font>): set<string> {
    set x | x in xs :: x.id
  }

  predicate DistinctIds(xs: seq<Font>) {
    forall i, j :: 0 <= i < j < |xs| ==> xs[i].id != xs[j].id
  }

  /** The first font of `xs` with the given id. */
  function FirstWithId(xs: seq<Font>, id: string): (r: Option<Font>)
    ensures r.Some? ==> r.value in xs && r.value.id == id
    ensures r.None? ==> id !in Ids(xs)
    decreases |xs|
  {
    if xs == [] then None
    else if xs[0].id == id then Some(xs[0])
    else FirstWithId(xs[1..], id)
  }

  /** `r` is `xs` with some elements left out, the rest in order. */
  predicate IsSubsequence(r: seq<Font>, xs: seq<Font>)
    decreases |xs|
  {
    r == [] || (xs != [] && ((r[0] == xs[0] && IsSubsequence(r[1..], xs[1..])) || IsSubsequence(r, xs[1..])))
  }

  /** `uniqBy(id)` of `xs`, skipping ids already in `seen`. */
  function UniqFrom(xs: seq<Font>, seen: set<string>): (r: seq<Font>)
    ensures |r| <= |xs|
    decreases |xs|
  {
    if xs == [] then []
    else if xs[0].id in seen then UniqFrom(xs[1..], seen)
    else [xs[0]] + UniqFrom(xs[1..], seen + {xs[0].id})
  }

  /** The ids of a non-empty list: its head's and its tail's. */
  lemma IdsCons(xs: seq<Font>)
    requires xs != []
    ensures Ids(xs) == {xs[0].id} + Ids(xs[1..])
  {
    assert xs == [xs[0]] + xs[1..];
  }

  /** `uniqBy(id)` keeps exactly one font for each id not yet seen. */
  lemma {:induction false} UniqFromIds(xs: seq<Font>, seen: set<string>)
    ensures Ids(UniqFrom(xs, seen)) == Ids(xs) - seen
    ensures DistinctIds(UniqFrom(xs, seen))
    decreases |xs|
  {
    if xs != [] {
      IdsCons(xs);
      if xs[0].id in seen {
        UniqFromIds(xs[1..], seen);
      } else {
        var t := UniqFrom(xs[1..], seen + {xs[0].id});
        UniqFromIds(xs[1..], seen + {xs[0].id});
        var r := [xs[0]] + t;
        assert r[1..] == t;
        IdsCons(r);
        forall j | 1 <= j < |r| ensures r[j].id != r[0].id && r[j] == t[j - 1] {
          assert t[j - 1] in t;
        }
      }
    }
  }

  /** The font kept for an id is the first one with that id. */
  lemma {:induction false} UniqFromFirst(xs: seq<Font>, seen: set<string>)
    ensures forall x :: x in UniqFrom(xs, seen) ==> FirstWithId(xs, x.id) == Some(x)
    decreases |xs|
  {
    if xs != [] {
      var s' := if xs[0].id in seen then seen else seen + {xs[0].id};
      var t := UniqFrom(xs[1..], s');
      UniqFromFirst(xs[1..], s');
      UniqFromIds(xs[1..], s');
      forall x | x in t ensures x.id != xs[0].id {
        assert x.id in Ids(t);
      }
    }
  }

  /** `uniqBy(id)` keeps the input order. */
  lemma {:induction false} UniqFromSubsequence(xs: seq<Font>, seen: set<string>)
    ensures IsSubsequence(UniqFrom(xs, seen), xs)
    decreases |xs|
  {
    if xs != [] {
      if xs[0].id in seen {
        UniqFromSubsequence(xs[1..], seen);
      } else {
        var t := UniqFrom(xs[1..], seen + {xs[0].id});
        UniqFromSubsequence(xs[1..], seen + {xs[0].id});
        assert ([xs[0]] + t)[1..] == t;
      }
    }
  }

  /** `_.uniqBy(font => font.id, xs)`: one font per id, the first one, in order. */
  function UniqById(xs: seq<Font>): (r: seq<Font>)
    ensures Ids(r) == Ids(xs) && DistinctIds(r)
    ensures IsSubsequence(r, xs)
  {
    UniqFromIds(xs, {});
    UniqFromSubsequence(xs, {});
    assert Ids(xs) - {} == Ids(xs);
    UniqFrom(xs, {})
  }

  /** Fonts that come first win, and the later part only adds ids not seen before. */
  lemma {:induction false} UniqAppend(a: seq<Font>, b: seq<Font>, seen: set<string>)
    ensures UniqFrom(a + b, seen) == UniqFrom(a, seen) + UniqFrom(b, seen + Ids(a))
  {
    UniqAppendAfter(a, b, seen);
    SeenAfterIds(a, seen);
  }

  /** The ids `uniqBy` has seen once it has walked over `a`. */
  function SeenAfter(a: seq<Font>, seen: set<string>): set<string>
    decreases |a|
  {
    if a == [] then seen
    else if a[0].id in seen then SeenAfter(a[1..], seen)
    else SeenAfter(a[1..], seen + {a[0].id})
  }

  lemma {:induction false} SeenAfterIds(a: seq<Font>, seen: set<string>)
    ensures SeenAfter(a, seen) == seen + Ids(a)
    decreases |a|
  {
    if a == [] {
      assert Ids(a) == {};
    } else {
      IdsCons(a);
      var s' := if a[0].id in seen then seen else seen + {a[0].id};
      SeenAfterIds(a[1..], s');
      assert s' + Ids(a[1..]) == seen + Ids(a);
    }
  }

  lemma {:induction false} UniqAppendAfter(a: seq<Font>, b: seq<Font>, seen: set<string>)
    ensures UniqFrom(a + b, seen) == UniqFrom(a, seen) + UniqFrom(b, SeenAfter(a, seen))
    decreases |a|
  {
    if a == [] {
      assert a + b == b;
    } else {
      assert (a + b)[0] == a[0] && (a + b)[1..] == a[1..] + b;
      if a[0].id in seen {
        UniqAppendAfter(a[1..], b, seen);
      } else {
        UniqAppendAfter(a[1..], b, seen + {a[0].id});
      }
    }
  }

  /** A list whose ids are already distinct, and new, passes through unchanged. */
  lemma {:induction false} UniqOfDistinct(xs: seq<Font>, seen: set<string>)
    requires DistinctIds(xs)
    requires forall i :: 0 <= i < |xs| ==> xs[i].id !in seen
    ensures UniqFrom(xs, seen) == xs
    decreases |xs|
  {
    if xs != [] {
      UniqOfDistinct(xs[1..], seen + {xs[0].id});
    }
  }

  /** The list shown without a search: the recent fonts first, then the catalog, one font per id. */
  function MergeRecent(recent: seq<Font>, catalog: seq<Font>): seq<Font> {
    UniqById(RecentlyList(recent) + catalog)
  }

  /** Recent fonts with distinct ids are shown first, as they are, then the catalog fonts whose ids are new. */
  lemma RecentFirst(recent: seq<Font>, catalog: seq<Font>)
    requires DistinctIds(recent)
    ensures MergeRecent(recent, catalog) == RecentlyList(recent) + UniqFrom(catalog, Ids(RecentlyList(recent)))
  {
    var r := RecentlyList(recent);
    UniqAppend(r, catalog, {});
    assert {} + Ids(r) == Ids(r);
    UniqOfDistinct(r, {});
  }

  /** The displayed list: a non-empty search line filters the catalog, else recent fonts are merged in. */
  function BuildList(catalog: seq<Font>, recent: seq<Font>, searchLine: Option<string>): (r: seq<Font>)
    ensures |r| <= |recent| + |catalog|
  {
    if searchLine.Some? && searchLine.value != "" then SearchFilter(catalog, searchLine.value)
    else MergeRecent(recent, catalog)
  }

  /** What the displayed list holds: the matching catalog fonts while
      searching, otherwise every recent and catalog font once by id. */
  lemma BuildListShows(catalog: seq<Font>, recent: seq<Font>, searchLine: Option<string>)
    ensures searchLine.Some? && searchLine.value != "" ==>
      forall f :: f in BuildList(catalog, recent, searchLine) <==>
        f in catalog && Contains(ToLower(f.family), ToLower(searchLine.value))
    ensures !(searchLine.Some? && searchLine.value != "") ==>
      var r := BuildList(catalog, recent, searchLine);
      DistinctIds(r) && Ids(r) == Ids(recent) + Ids(catalog)
  {
    if !(searchLine.Some? && searchLine.value != "") {
      var rl := RecentlyList(recent);
      assert Ids(rl) == Ids(recent) by {
        forall id | id in Ids(recent) ensures id in Ids(rl) {
          var x :| x in recent && x.id == id;
          var i :| 0 <= i < |recent| && recent[i] == x;
          assert rl[i] in rl;
        }
      }
      UniqFromIds(rl + catalog, {});
      assert Ids(rl + catalog) == Ids(rl) + Ids(catalog) by {
        forall id | id in Ids(rl + catalog) ensures id in Ids(rl) + Ids(catalog) {
          var x :| x in rl + catalog && x.id == id;
        }
      }
    }
  }

  // ---------------------------------------------------------------------
  // The panel's state

  /** The outcome of the catalog request: the items, or nothing when it failed. */
  predicate CatalogFailed(catalog: Option<seq<RawFont>>) {
    catalog.None? || catalog.value == []
  }

  class FontPanel {
    var listFonts: seq<Font>
    var isProcessing: bool
    var isWarn: bool
    var orderRef: string
    var realListFonts: Option<seq<Font>>
    var cacheNumberFonts: int
    var currentIsMiniature: bool

    /** The panel's first render. */
    constructor (order: string)
      ensures listFonts == [] && isProcessing && !isWarn
      ensures orderRef == order && realListFonts == None
      ensures cacheNumberFonts == 0 && !currentIsMiniature
    {
      listFonts := [];
      isProcessing := true;
      isWarn := false;
      orderRef := order;
      realListFonts := None;
      cacheNumberFonts := 0;
      currentIsMiniature := false;
    }

    /** Whether the loading effect requests the catalog for `order`. */
    function NeedsCatalog(order: string): bool
      reads this
    {
      realListFonts.None? || orderRef != order
    }

    /** The loading effect, run to completion. `catalog` is what the catalog
        request resolves to, used only when the effect makes that request.
        Returns whether it did. */
    method RefreshList(order: string, searchLine: Option<string>, recentlyFonts: seq<Font>,
                       catalog: Option<seq<RawFont>>)
      returns (fetched: bool)
      modifies this
      ensures fetched == old(NeedsCatalog(order))
      ensures orderRef == order && !isProcessing && currentIsMiniature == old(currentIsMiniature)
      ensures fetched && CatalogFailed(catalog) ==>
        && isWarn && listFonts == []
        && realListFonts == old(realListFonts) && cacheNumberFonts == old(cacheNumberFonts)
      ensures !(fetched && CatalogFailed(catalog)) ==>
        && !isWarn
        && realListFonts == Some(if fetched then Normalise(catalog.value) else old(realListFonts).value)
        && listFonts == BuildList(realListFonts.value, recentlyFonts, searchLine)
        && cacheNumberFonts == 0
    {
      fetched := NeedsCatalog(order);
      isProcessing := true;
      listFonts := [];
      if fetched {
        orderRef := order;
        if CatalogFailed(catalog) {
          isWarn := true;
          isProcessing := false;
          return;
        }
        realListFonts := Some(Normalise(catalog.value));
      }
      ShowList(recentlyFonts, searchLine);
    }

    /** The end of a successful refresh: the list is rebuilt from the held
        catalog, the preview cursor is reset and the flags are cleared. */
    method ShowList(recentlyFonts: seq<Font>, searchLine: Option<string>)
      requires realListFonts.Some?
      modifies this
      ensures realListFonts == old(realListFonts) && orderRef == old(orderRef)
      ensures listFonts == BuildList(realListFonts.value, recentlyFonts, searchLine)
      ensures !isProcessing && !isWarn && cacheNumberFonts == 0
      ensures currentIsMiniature == old(currentIsMiniature)
    {
      var list := BuildList(realListFonts.value, recentlyFonts, searchLine);
      isProcessing := false;
      cacheNumberFonts := 0;
      isWarn := false;
      listFonts := list;
    }

    /** `loadPreview`: the rows handed to the preview loader for this
        visible-range event, if any. */
    method LoadPreview(overscanStopIndex: int, isMiniature: bool)
      returns (dispatched: Option<seq<Font>>)
      modifies this
      ensures Step(cacheNumberFonts, currentIsMiniature, dispatched)
           == PreviewStep(old(cacheNumberFonts), old(currentIsMiniature), listFonts, isProcessing, isMiniature, overscanStopIndex)
      ensures listFonts == old(listFonts) && isProcessing == old(isProcessing) && isWarn == old(isWarn)
      ensures orderRef == old(orderRef) && realListFonts == old(realListFonts)
    {
      if currentIsMiniature != isMiniature {
        currentIsMiniature := isMiniature;
        cacheNumberFonts := 0;
      }
      dispatched := None;
      if cacheNumberFonts < overscanStopIndex && !isProcessing {
        var rows := JsSlice(listFonts, cacheNumberFonts, overscanStopIndex + 1);
        if isMiniature {
          dispatched := Some(rows);
        }
        cacheNumberFonts := overscanStopIndex;
      }
    }
  }

  // ---------------------------------------------------------------------
  // The viewport scheduler

  /** `Array.prototype.slice` index resolution: negative counts from the end, then clamp. */
  function ResolveIndex(i: int, n: nat): (k: nat)
    ensures k <= n
    ensures 0 <= i <= n ==> k == i
    ensures i > n ==> k == n
  {
    if i < 0 then (if n + i < 0 then 0 else n + i)
    else if i > n then n
    else i
  }

  /** `xs.slice(start, end)`. */
  function JsSlice<T>(xs: seq<T>, start: int, end: int): (r: seq<T>)
    ensures |r| <= |xs|
  {
    var s := ResolveIndex(start, |xs|);
    var e := ResolveIndex(end, |xs|);
    if e <= s then [] else xs[s..e]
  }

  /** A slice past the end of the list stops at the end; an empty range is empty. */
  lemma JsSliceClamps<T>(xs: seq<T>, start: int, end: int)
    requires 0 <= start
    ensures start <= end <= |xs| ==> JsSlice(xs, start, end) == xs[start..end]
    ensures start <= |xs| <= end ==> JsSlice(xs, start, end) == xs[start..]
    ensures 0 <= end <= start ==> JsSlice(xs, start, end) == []
    ensures |xs| <= start ==> JsSlice(xs, start, end) == []
  {
  }

  /** The scheduler's two refs after an event, and what it dispatched. */
  datatype Step = Step(cursor: int, lastMiniature: bool, dispatched: Option<seq<Font>>)

  function PreviewStep(cursor: int, lastMiniature: bool, listFonts: seq<Font>, isProcessing: bool,
                       isMiniature: bool, stop: int): (s: Step)
    ensures s.lastMiniature == isMiniature
    ensures s.dispatched.Some? ==> isMiniature && !isProcessing
    ensures lastMiniature == isMiniature ==> s.cursor >= cursor
    ensures lastMiniature != isMiniature ==> s.cursor >= 0
    ensures lastMiniature == isMiniature && stop <= cursor ==> s == Step(cursor, isMiniature, None)
    ensures isProcessing ==> s.dispatched == None && s.cursor == (if lastMiniature == isMiniature then cursor else 0)
    ensures var c := if lastMiniature != isMiniature then 0 else cursor;
      && (c < stop && !isProcessing ==> s.cursor == stop && (s.dispatched.Some? <==> isMiniature))
      && (!(c < stop && !isProcessing) ==> s == Step(c, isMiniature, None))
  {
    var c := if lastMiniature != isMiniature then 0 else cursor;
    if c < stop && !isProcessing then
      Step(stop, isMiniature, if isMiniature then Some(JsSlice(listFonts, c, stop + 1)) else None)
    else
      Step(c, isMiniature, None)
  }

  /** An acting event sends the rows from the old cursor up to and including
      `stop`, so the row at the old cursor is sent again. */
  lemma PreviewSendsFromOldCursor(cursor: nat, listFonts: seq<Font>, stop: int)
    requires cursor < stop < |listFonts|
    ensures var s := PreviewStep(cursor, true, listFonts, false, true, stop);
      && s.cursor == stop
      && s.dispatched == Some(listFonts[cursor..stop + 1])
  {
  }

  /** Changing the preview flag starts again from the first row. */
  lemma PreviewResetsOnFlagChange(cursor: int, listFonts: seq<Font>, stop: int)
    requires 0 < stop < |listFonts|
    ensures PreviewStep(cursor, false, listFonts, false, true, stop).dispatched == Some(listFonts[..stop + 1])
    ensures PreviewStep(cursor, true, listFonts, false, false, stop) == Step(stop, false, None)
  {
  }

  /** A list of one row has the stop index 0, which is never above the
      cursor, so its row is never handed to the preview loader. */
  lemma SingleRowNeverPreviewed(cursor: int, lastMiniature: bool, font: Font, isProcessing: bool, isMiniature: bool)
    requires cursor >= 0
    ensures var s := PreviewStep(cursor, lastMiniature, [font], isProcessing, isMiniature, 0);
      s.dispatched == None && s.cursor == (if lastMiniature != isMiniature then 0 else cursor)
  {
  }

  /** The events 10, 25, 25, 40 in preview mode: rows 0-10, 10-25, nothing, 25-40. */
  lemma PreviewTrace(listFonts: seq<Font>)
    requires |listFonts| > 40
    ensures var s1 := PreviewStep(0, false, listFonts, false, true, 10);
      var s2 := PreviewStep(s1.cursor, s1.lastMiniature, listFonts, false, true, 25);
      var s3 := PreviewStep(s2.cursor, s2.lastMiniature, listFonts, false, true, 25);
      var s4 := PreviewStep(s3.cursor, s3.lastMiniature, listFonts, false, true, 40);
      && s1.dispatched == Some(listFonts[0..11])
      && s2.dispatched == Some(listFonts[10..26])
      && s3.dispatched == None
      && s4.dispatched == Some(listFonts[25..41])
  {
  }

  /** The cursor after a run of events with a fixed preview flag, while not processing. */
  function Schedule(cursor: int, stops: seq<int>): (r: int)
    ensures r >= cursor
    ensures r == cursor || r in stops
    decreases |stops|
  {
    if stops == [] then cursor
    else
      var s := PreviewStep(cursor, true, [], false, true, stops[0]);
      Schedule(s.cursor, stops[1..])
  }

  /** After a run of events the cursor has reached the furthest row requested. */
  lemma {:induction false} ScheduleReachesFurthest(cursor: int, stops: seq<int>)
    ensures forall k :: 0 <= k < |stops| ==> Schedule(cursor, stops) >= stops[k]
    decreases |stops|
  {
    if stops != [] {
      var s := PreviewStep(cursor, true, [], false, true, stops[0]);
      ScheduleReachesFurthest(s.cursor, stops[1..]);
      forall k | 0 <= k < |stops| ensures Schedule(cursor, stops) >= stops[k] {
        if k > 0 {
          assert stops[k] == stops[1..][k - 1];
        }
      }
    }
  }
}
