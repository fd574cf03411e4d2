// The Google Fonts driver: font ids, style-element keys, the stylesheet
// request, the `@font-face` scanner, and `loadFonts`, which reserves one
// style element per (font, preview flag, variants) and fills each at most once.

module Driver {
  import opened Text
  import opened Fonts

  const StylesheetBase: string := "https://fonts.googleapis.com/css"
  const FaceOpen: string := "@font-face {"
  const FamilyDecl: string := "font-family: "

  // ---------------------------------------------------------------------
  // Ids and keys

  /** `getIdFonts`: every whitespace run becomes `-`, then the result is lower-cased. */
  function FontId(family: string): (id: string)
    ensures NoSpace(id)
    ensures forall k :: 0 <= k < |id| ==> !('A' <= id[k] <= 'Z')
    ensures |id| <= |family|
  {
    ToLower(ReplaceRuns(family, IsSpace, '-'))
  }

  /** Families that differ only in letter case share an id. */
  lemma FontIdIgnoresCase(a: string, b: string)
    requires ToLower(a) == ToLower(b)
    ensures FontId(a) == FontId(b)
  {
    forall x ensures IsSpace(Lower(x)) == IsSpace(x) { }
    assert Lower('-') == '-';
    LowerReplaceRunsCommute(a, IsSpace, '-');
    LowerReplaceRunsCommute(b, IsSpace, '-');
  }

  /** An id is its own id. */
  lemma FontIdIdempotent(family: string)
    ensures FontId(FontId(family)) == FontId(family)
  {
    var id := FontId(family);
    ReplaceRunsNoRun(id, IsSpace, '-');
    ToLowerIdempotent(ReplaceRuns(family, IsSpace, '-'));
  }

  lemma FontIdOpenSans()
    ensures FontId("Open Sans") == "open-sans"
  {
    SpacedFamily("Open", " ", "Sans");
    assert "Open" + " " + "Sans" == "Open Sans";
    assert "Open" + "-" + "Sans" == "Open-Sans";
    assert ToLower("Open-Sans") == "open-sans";
  }

  /** A run of several spaces still gives a single `-`. */
  lemma FontIdSpaceRun()
    ensures FontId("open   sans") == "open-sans"
  {
    SpacedFamily("open", "   ", "sans");
    assert "open" + "   " + "sans" == "open   sans";
    assert "open" + "-" + "sans" == "open-sans";
    assert ToLower("open-sans") == "open-sans";
  }

  lemma SpacedFamily(a: string, run: string, b: string)
    requires NoSpace(a) && NoSpace(b)
    requires run != [] && forall k :: 0 <= k < |run| ==> IsSpace(run[k])
    ensures FontId(a + run + b) == ToLower(a + "-" + b)
  {
    ReplaceRunsBetween(a, run, b, IsSpace, '-');
  }

  /** `getIdElement`: the id of the style element that holds one font's rules. */
  function ElementKey(id: string, isPreview: bool, variants: seq<string>): (key: string)
    ensures id <= key
  {
    id + (if isPreview then "-preview" else "") + "-" + Join(variants, ',')
  }

  /** A preview load and a full load of the same font never share an element. */
  lemma PreviewKeyDiffers(id: string, variants: seq<string>)
    ensures ElementKey(id, true, variants) != ElementKey(id, false, variants)
  {
    assert |ElementKey(id, true, variants)| == |ElementKey(id, false, variants)| + 8;
  }

  /** Variants are joined in the order given, not sorted. */
  lemma VariantOrderMatters()
    ensures ElementKey("roboto", false, ["regular", "700"]) != ElementKey("roboto", false, ["700", "regular"])
  {
    assert ElementKey("roboto", false, ["regular", "700"])[7] == 'r';
    assert ElementKey("roboto", false, ["700", "regular"])[7] == '7';
  }

  // ---------------------------------------------------------------------
  // The stylesheet request (`getStylesheet` up to the fetch)

  datatype Param = Param(name: string, value: string)

  /** The variant requested for a font: `regular` if it has one, else its first. */
  function PreferredVariant(variants: seq<string>): (v: string)
    ensures variants == [] ==> v == ""
    ensures variants != [] ==> v in variants
    ensures v == "regular" <==> "regular" in variants
    ensures "regular" !in variants && variants != [] ==> v == variants[0]
  {
    if "regular" in variants then "regular"
    else if variants == [] then ""
    else variants[0]
  }

  function FamilySpec(font: Font): string {
    font.family + ":" + PreferredVariant(font.variants)
  }

  function FamilySpecs(fonts: seq<Font>): (specs: seq<string>)
    ensures |specs| == |fonts|
    ensures forall i :: 0 <= i < |fonts| ==> specs[i] == FamilySpec(fonts[i])
  {
    seq(|fonts|, i requires 0 <= i < |fonts| => FamilySpec(fonts[i]))
  }

  /** The query parameters of the stylesheet request, in the order they are appended. */
  function StylesheetParams(fonts: seq<Font>, previewsOnly: bool, text: string): (ps: seq<Param>)
    ensures |ps| == if previewsOnly then 3 else 2
    ensures ps[0] == Param("family", Join(FamilySpecs(fonts), '|'))
    ensures ps[|ps| - 1] == Param("font-display", "swap")
    ensures previewsOnly ==> ps[1] == Param("text", text)
  {
    [Param("family", Join(FamilySpecs(fonts), '|'))]
    + (if previewsOnly then [Param("text", text)] else [])
    + [Param("font-display", "swap")]
  }

  /** The family parameter lists every requested font, in request order. */
  lemma StylesheetFamiliesInOrder(fonts: seq<Font>, previewsOnly: bool, text: string)
    requires |fonts| >= 1
    requires forall i :: 0 <= i < |fonts| ==> '|' !in FamilySpec(fonts[i])
    ensures Split(StylesheetParams(fonts, previewsOnly, text)[0].value, '|') == FamilySpecs(fonts)
  {
    SplitJoin(FamilySpecs(fonts), '|');
  }

  // ---------------------------------------------------------------------
  // The `@font-face` scanner (`extractFontStyles`)

  /** What `/@font-face {([\s\S]*?)}/` matches: the opening text, then
      everything up to and including the first `}`. */
  predicate IsFaceBlock(b: string) {
    && FaceOpen <= b
    && |b| > |FaceOpen|
    && b[|b| - 1] == '}'
    && forall k :: 0 <= k < |b| - 1 ==> b[k] != '}'
  }

  /** The index of the first `}` at or after `from`, or -1. */
  function FindClose(s: string, from: nat): (j: int)
    requires from <= |s|
    ensures j == -1 || (from <= j < |s| && s[j] == '}')
    ensures forall k :: from <= k < |s| && (j == -1 || k < j) ==> s[k] != '}'
    decreases |s| - from
  {
    if from == |s| then -1
    else if s[from] == '}' then from
    else FindClose(s, from + 1)
  }

  /** The successive matches of the global `@font-face` expression, in source order. */
  function FontFaceBlocks(css: string): (blocks: seq<string>)
    ensures forall i :: 0 <= i < |blocks| ==> IsFaceBlock(blocks[i])
    decreases |css|
  {
    var i := IndexOf(css, FaceOpen);
    if i < 0 then []
    else
      var j := FindClose(css, i + |FaceOpen|);
      if j < 0 then []
      else
        MatchIsFaceBlock(css, i, j);
        [css[i..j + 1]] + FontFaceBlocks(css[j + 1..])
  }

  lemma MatchIsFaceBlock(css: string, i: nat, j: int)
    requires OccursAt(css, FaceOpen, i)
    requires i + |FaceOpen| <= j < |css| && css[j] == '}'
    requires forall k :: i + |FaceOpen| <= k < j ==> css[k] != '}'
    ensures IsFaceBlock(css[i..j + 1])
  {
    var b := css[i..j + 1];
    assert b[..|FaceOpen|] == css[i..][..|FaceOpen|];
    forall k | 0 <= k < |b| - 1 ensures b[k] != '}' {
      if k < |FaceOpen| {
        assert b[k] == FaceOpen[k];
      } else {
        assert b[k] == css[i + k];
      }
    }
  }

  /** A stylesheet written as text, `@font-face` blocks, and a tail. */
  datatype FaceText = FaceText(lead: string, body: string)

  function RenderFaces(faces: seq<FaceText>, tail: string): string
    decreases |faces|
  {
    if faces == [] then tail
    else faces[0].lead + FaceOpen + faces[0].body + "}" + RenderFaces(faces[1..], tail)
  }

  function RenderedBlocks(faces: seq<FaceText>): (blocks: seq<string>)
    ensures |blocks| == |faces|
  {
    seq(|faces|, i requires 0 <= i < |faces| => FaceOpen + faces[i].body + "}")
  }

  /** The scanner finds exactly the blocks a stylesheet was written with,
      as long as no `@` stands between blocks and no `}` inside one. */
  lemma {:induction false} ScanRendered(faces: seq<FaceText>, tail: string)
    requires forall i :: 0 <= i < |faces| ==> '@' !in faces[i].lead && '}' !in faces[i].body
    requires '@' !in tail
    ensures FontFaceBlocks(RenderFaces(faces, tail)) == RenderedBlocks(faces)
    decreases |faces|
  {
    if faces == [] {
      ScanTail(tail);
    } else {
      var f := faces[0];
      var rest := RenderFaces(faces[1..], tail);
      assert RenderFaces(faces, tail) == f.lead + FaceOpen + f.body + "}" + rest;
      assert forall i :: 0 <= i < |faces| - 1 ==> faces[1..][i] == faces[i + 1];
      ScanRendered(faces[1..], tail);
      ScanOne(f.lead, f.body, rest);
      RenderedBlocksCons(faces);
    }
  }

  lemma RenderedBlocksCons(faces: seq<FaceText>)
    requires faces != []
    ensures RenderedBlocks(faces) == [FaceOpen + faces[0].body + "}"] + RenderedBlocks(faces[1..])
  {
  }

  lemma ScanTail(tail: string)
    requires '@' !in tail
    ensures FontFaceBlocks(tail) == []
  {
    forall j | 0 <= j <= |tail| ensures !OccursAt(tail, FaceOpen, j) {
      if j < |tail| {
        assert tail[j] in tail;
      }
    }
  }

  lemma ScanOne(lead: string, body: string, rest: string)
    requires '@' !in lead && '}' !in body
    ensures FontFaceBlocks(lead + FaceOpen + body + "}" + rest) == [FaceOpen + body + "}"] + FontFaceBlocks(rest)
  {
    OpenAfterLead(lead, body, rest);
    CloseAfterOpen(lead, body, rest);
    PiecesOfOne(lead, body, rest);
  }

  lemma OpenAfterLead(lead: string, body: string, rest: string)
    requires '@' !in lead
    ensures IndexOf(lead + FaceOpen + body + "}" + rest, FaceOpen) == |lead|
  {
    assert lead + FaceOpen + body + "}" + rest == lead + FaceOpen + (body + "}" + rest);
    IndexAfterLead(lead, FaceOpen, body + "}" + rest);
  }

  lemma CloseAfterOpen(lead: string, body: string, rest: string)
    requires '}' !in body
    ensures FindClose(lead + FaceOpen + body + "}" + rest, |lead| + |FaceOpen|) == |lead| + |FaceOpen| + |body|
  {
    var css := lead + FaceOpen + body + "}" + rest;
    var from := |lead| + |FaceOpen|;
    assert css[from..from + |body|] == body;
    assert css[from + |body|] == '}';
    CloseAfterBody(css, from, body);
  }

  lemma PiecesOfOne(lead: string, body: string, rest: string)
    ensures var css := lead + FaceOpen + body + "}" + rest;
      var j := |lead| + |FaceOpen| + |body|;
      css[|lead|..j + 1] == FaceOpen + body + "}" && css[j + 1..] == rest
  {
  }

  lemma IndexAfterLead(lead: string, t: string, rest: string)
    requires |t| > 0 && t[0] !in lead
    ensures IndexOf(lead + t + rest, t) == |lead|
  {
    var s := lead + t + rest;
    assert s[|lead|..] == t + rest;
    assert OccursAt(s, t, |lead|);
    var r := IndexOf(s, t);
  }

  lemma CloseAfterBody(css: string, from: nat, body: string)
    requires from + |body| < |css| && css[from..from + |body|] == body
    requires css[from + |body|] == '}'
    requires '}' !in body
    ensures FindClose(css, from) == from + |body|
  {
    var j := FindClose(css, from);
  }

  predicate IsQuote(c: char) {
    c == '\'' || c == '"'
  }

  /** The index of the first quote or line terminator at or after `from`, or `|s|`. */
  function FindQuoteOrLineEnd(s: string, from: nat): (k: nat)
    requires from <= |s|
    ensures from <= k <= |s|
    ensures k < |s| ==> IsQuote(s[k]) || IsLineTerminator(s[k])
    ensures forall m :: from <= m < k ==> !IsQuote(s[m]) && !IsLineTerminator(s[m])
    decreases |s| - from
  {
    if from == |s| || IsQuote(s[from]) || IsLineTerminator(s[from]) then from
    else FindQuoteOrLineEnd(s, from + 1)
  }

  /** The name between a quote at `q` and the next quote on the same line, if both are there. */
  function CaptureAt(block: string, q: nat): (name: Option<string>)
    ensures name.Some? ==> forall m :: 0 <= m < |name.value| ==> !IsQuote(name.value[m]) && !IsLineTerminator(name.value[m])
  {
    if q < |block| && IsQuote(block[q]) then
      var k := FindQuoteOrLineEnd(block, q + 1);
      if k < |block| && IsQuote(block[k]) then Some(block[q + 1..k]) else None
    else None
  }

  /** What ``/font-family: ['"](.*?)['"]/`` captures: the first name, after
      `font-family: ` and a quote, that reaches a closing quote on the same line. */
  function QuotedFamily(block: string): (name: Option<string>)
    ensures name.Some? ==> forall m :: 0 <= m < |name.value| ==> !IsQuote(name.value[m]) && !IsLineTerminator(name.value[m])
    decreases |block|
  {
    var p := IndexOf(block, FamilyDecl);
    if p < 0 then None
    else match CaptureAt(block, p + |FamilyDecl|)
      case Some(name) => Some(name)
      case None => QuotedFamily(block[p + 1..])
  }

  /** The name written after the first `font-family: ` declaration is the one captured. */
  lemma QuotedFamilyOfDecl(pre: string, open: char, name: string, close: char, post: string)
    requires IndexOf(pre + FamilyDecl, FamilyDecl) == |pre|
    requires IsQuote(open) && IsQuote(close)
    requires forall m :: 0 <= m < |name| ==> !IsQuote(name[m]) && !IsLineTerminator(name[m])
    ensures QuotedFamily(pre + FamilyDecl + [open] + name + [close] + post) == Some(name)
  {
    var block := pre + FamilyDecl + [open] + name + [close] + post;
    DeclFound(pre, open, name, close, post);
    DeclPieces(pre, open, name, close, post);
    CaptureName(block, |pre| + |FamilyDecl|, name);
    QuotedFamilyAt(block, |pre|, name);
  }

  /** When the first declaration is followed by a captured name, that name is the family. */
  lemma QuotedFamilyAt(block: string, p: nat, name: string)
    requires IndexOf(block, FamilyDecl) == p
    requires CaptureAt(block, p + |FamilyDecl|) == Some(name)
    ensures QuotedFamily(block) == Some(name)
  {
  }

  lemma CaptureName(block: string, q: nat, name: string)
    requires q + 1 + |name| < |block|
    requires IsQuote(block[q]) && IsQuote(block[q + 1 + |name|])
    requires block[q + 1..q + 1 + |name|] == name
    requires forall m :: 0 <= m < |name| ==> !IsQuote(name[m]) && !IsLineTerminator(name[m])
    ensures CaptureAt(block, q) == Some(name)
  {
    NameThenQuote(block, q + 1, name, block[q + 1 + |name|]);
  }

  lemma DeclFound(pre: string, open: char, name: string, close: char, post: string)
    requires IndexOf(pre + FamilyDecl, FamilyDecl) == |pre|
    ensures IndexOf(pre + FamilyDecl + [open] + name + [close] + post, FamilyDecl) == |pre|
  {
    assert pre + FamilyDecl + [open] + name + [close] + post == (pre + FamilyDecl) + ([open] + name + [close] + post);
    IndexOfPrefix(pre + FamilyDecl, [open] + name + [close] + post, FamilyDecl);
  }

  lemma DeclPieces(pre: string, open: char, name: string, close: char, post: string)
    ensures var block := pre + FamilyDecl + [open] + name + [close] + post;
      var q := |pre| + |FamilyDecl|;
      && block[q] == open
      && block[q + 1..q + 1 + |name|] == name
      && block[q + 1 + |name|] == close
  {
  }

  lemma NameThenQuote(block: string, from: nat, name: string, close: char)
    requires from + |name| < |block|
    requires block[from..from + |name|] == name && block[from + |name|] == close && IsQuote(close)
    requires forall m :: 0 <= m < |name| ==> !IsQuote(name[m]) && !IsLineTerminator(name[m])
    ensures FindQuoteOrLineEnd(block, from) == from + |name|
  {
    var k := FindQuoteOrLineEnd(block, from);
  }

  /** The first occurrence in a prefix is the first occurrence in the whole. */
  lemma IndexOfPrefix(a: string, b: string, t: string)
    requires IndexOf(a, t) >= 0
    ensures IndexOf(a + b, t) == IndexOf(a, t)
  {
    var r := IndexOf(a, t);
    OccursInPrefix(a, b, t, r);
    var r' := IndexOf(a + b, t);
    if r' < r {
      OccursInPrefix(a, b, t, r');
    }
  }

  /** Below the end of `a`, an occurrence in `a + b` is an occurrence in `a`. */
  lemma OccursInPrefix(a: string, b: string, t: string, j: int)
    requires 0 <= j && j + |t| <= |a|
    ensures OccursAt(a + b, t, j) <==> OccursAt(a, t, j)
  {
    assert (a + b)[j..][..|t|] == a[j..][..|t|];
  }

  /** One entry of `extractFontStyles`: a block keyed by its family's id. */
  datatype FontStyle = FontStyle(id: string, rule: string)

  /** One block keyed by the id of its quoted family, if it has one. */
  function Keyed(block: string): (r: Option<FontStyle>)
    ensures r.Some? <==> QuotedFamily(block).Some?
    ensures r.Some? ==> r.value.rule == block && NoSpace(r.value.id)
  {
    match QuotedFamily(block)
    case None => None
    case Some(family) => Some(FontStyle(FontId(family), block))
  }

  /** Keys each block by the id of its quoted family; a block without one
      makes the whole extraction fail, as the source's `fontFamily[1]` throws. */
  function KeyBlocks(blocks: seq<string>): Option<seq<FontStyle>> {
    AllSome(blocks, Keyed)
  }

  /** Extraction fails exactly when some block has no quoted family. */
  lemma KeyBlocksFails(blocks: seq<string>)
    ensures KeyBlocks(blocks).None? <==> exists i :: 0 <= i < |blocks| && Keyed(blocks[i]).None?
  {
    AllSomeFails(blocks, Keyed);
  }

  /** On success, entry `i` is block `i` keyed by the id of its family. */
  lemma KeyBlocksEntries(blocks: seq<string>)
    ensures var r := KeyBlocks(blocks);
      r.Some? ==> |r.value| == |blocks| && forall i :: 0 <= i < |blocks| ==> Keyed(blocks[i]) == Some(r.value[i])
  {
    AllSomeEntries(blocks, Keyed);
  }

  /** `extractFontStyles`. */
  function ExtractFontStyles(css: string): (r: Option<seq<FontStyle>>)
    ensures var blocks := FontFaceBlocks(css);
      r.Some? ==> |r.value| == |blocks| && forall i :: 0 <= i < |blocks| ==> r.value[i].rule == blocks[i]
  {
    var blocks := FontFaceBlocks(css);
    KeyBlocksEntries(blocks);
    KeyBlocks(blocks)
  }

  /** `fontStyles.filter(s => !!s[id]).map(s => s[id]).join('')`: the rules of one
      font id, concatenated in source order. */
  function StylesFor(styles: seq<FontStyle>, id: string): (css: string)
    ensures (forall i :: 0 <= i < |styles| ==> styles[i].id != id) ==> css == ""
    decreases |styles|
  {
    if styles == [] then ""
    else (if styles[0].id == id then styles[0].rule else "") + StylesFor(styles[1..], id)
  }

  /** A font whose id some non-empty rule carries gets a non-empty stylesheet. */
  lemma {:induction false} StylesForNonEmpty(styles: seq<FontStyle>, id: string, i: nat)
    requires i < |styles| && styles[i].id == id && styles[i].rule != ""
    ensures StylesFor(styles, id) != ""
    decreases |styles|
  {
    if i > 0 {
      StylesForNonEmpty(styles[1..], id, i - 1);
    }
  }

  function HasId(id: string): FontStyle -> bool {
    (s: FontStyle) => s.id == id
  }

  /** `.map(style => style[id])` over the kept entries. */
  function RuleTexts(styles: seq<FontStyle>): (rules: seq<string>)
    ensures |rules| == |styles|
    decreases |styles|
  {
    if styles == [] then [] else [styles[0].rule] + RuleTexts(styles[1..])
  }

  /** `StylesFor` is the source's filter, then map, then `join('')`. */
  lemma {:induction false} StylesForIsJoin(styles: seq<FontStyle>, id: string)
    ensures StylesFor(styles, id) == Concat(RuleTexts(Filter(styles, HasId(id))))
    decreases |styles|
  {
    if styles != [] {
      StylesForIsJoin(styles[1..], id);
      var rest := Filter(styles[1..], HasId(id));
      if styles[0].id == id {
        var kept := [styles[0]] + rest;
        assert Filter(styles, HasId(id)) == kept;
        assert kept[1..] == rest;
        assert RuleTexts(kept) == [styles[0].rule] + RuleTexts(rest);
        assert ([styles[0].rule] + RuleTexts(rest))[1..] == RuleTexts(rest);
      } else {
        assert Filter(styles, HasId(id)) == rest;
      }
    }
  }

  // ---------------------------------------------------------------------
  // The document and the shared preview sheet

  /** The element `id` gets an empty placeholder unless it exists already. */
  function WithPlaceholder(elements: map<string, string>, key: string): (r: map<string, string>)
    ensures r.Keys == elements.Keys + {key}
    ensures forall k :: k in elements ==> r[k] == elements[k]
    ensures key !in elements ==> r[key] == ""
  {
    if key in elements then elements else elements[key := ""]
  }

  /** `fillStylesheet`: an existing, still empty element receives `styles`. */
  function WithStyles(elements: map<string, string>, key: string, styles: string): (r: map<string, string>)
    ensures r.Keys == elements.Keys
    ensures forall k :: k in elements && k != key ==> r[k] == elements[k]
    ensures key in elements && elements[key] != "" ==> r[key] == elements[key]
    ensures key in elements && elements[key] == "" ==> r[key] == styles
  {
    if key in elements && elements[key] == "" && styles != "" then elements[key := styles] else elements
  }

  /** Once an element has content, no later fill changes it. */
  lemma WriteOnce(elements: map<string, string>, key: string, first: string, second: string)
    requires key in elements && elements[key] == "" && first != ""
    ensures WithStyles(WithStyles(elements, key, first), key, second) == WithStyles(elements, key, first)
  {
  }

  /** The text after which `applyFontPreview` checks the preview sheet. */
  function PreviewSelector(family: string, suffix: string): (selector: string)
    ensures "#font-item-" <= selector && selector[|selector| - 1] == ' '
  {
    "#font-item-" + FontId(family) + suffix + " "
  }

  /** The rule `applyFontPreview` appends. */
  function PreviewRule(family: string, suffix: string): (rule: string)
    ensures OccursAt(rule, PreviewSelector(family, suffix), |RuleIndent|)
  {
    RuleIndent + PreviewSelector(family, suffix) + RuleBody(family)
  }

  const RuleIndent: string := "\n\t\t\t"

  function RuleBody(family: string): string {
    "{\n\t\t\t\tfont-family: \"" + family + "\";\n\t\t\t}\n\t\t"
  }

  /** The sheet text after `applyFontPreview`'s check: `rule` is appended
      unless `selector` already occurs in the sheet. */
  function AppendOnce(sheet: string, selector: string, rule: string): (r: string)
    ensures sheet <= r
    ensures Contains(sheet, selector) ==> r == sheet
    ensures !Contains(sheet, selector) ==> r == sheet + rule
  {
    ContainsIndexOf(sheet, selector);
    if IndexOf(sheet, selector) == -1 then sheet + rule else sheet
  }

  /** After appending once, the selector is present whenever the rule carries it. */
  lemma AppendOnceHolds(sheet: string, selector: string, rule: string)
    requires Contains(rule, selector)
    ensures Contains(AppendOnce(sheet, selector, rule), selector)
  {
    if !Contains(sheet, selector) {
      ContainsPrepend(sheet, rule, selector);
    }
  }

  lemma RuleHoldsSelector(family: string, suffix: string)
    ensures Contains(PreviewRule(family, suffix), PreviewSelector(family, suffix))
  {
    ContainsMiddle(RuleIndent, PreviewSelector(family, suffix), RuleBody(family));
  }

  /** The element-id to text-content view of the document the driver writes into. */
  class StyleDocument {
    var elements: map<string, string>

    constructor (elements: map<string, string>)
      ensures this.elements == elements
    {
      this.elements := elements;
    }

    /** `createStylesheet`. */
    method CreateStylesheet(key: string)
      modifies this
      ensures elements == WithPlaceholder(old(elements), key)
    {
      if key !in elements {
        elements := elements[key := ""];
      }
    }

    /** `fillStylesheet`. */
    method FillStylesheet(key: string, styles: string)
      modifies this
      ensures elements == WithStyles(old(elements), key, styles)
    {
      if key in elements && |elements[key]| == 0 && styles != "" {
        elements := elements[key := styles];
      }
    }
  }

  /** The text content of the shared preview `<style>` element. */
  class PreviewSheet {
    var text: string

    constructor ()
      ensures text == ""
    {
      text := "";
    }

    /** `applyFontPreview`. */
    method ApplyFontPreview(font: Font, selectorSuffix: string)
      modifies this
      ensures text == AppendOnce(old(text), PreviewSelector(font.family, selectorSuffix), PreviewRule(font.family, selectorSuffix))
      ensures Contains(text, PreviewSelector(font.family, selectorSuffix))
    {
      RuleHoldsSelector(font.family, selectorSuffix);
      AppendOnceHolds(text, PreviewSelector(font.family, selectorSuffix), PreviewRule(font.family, selectorSuffix));
      var style := PreviewRule(font.family, selectorSuffix);
      if IndexOf(text, PreviewSelector(font.family, selectorSuffix)) == -1 {
        text := text + style;
      }
    }
  }

  // ---------------------------------------------------------------------
  // `loadFonts`

  /** The key of a font's element for a given preview flag. */
  function KeyOf(font: Font, isPreview: bool): string {
    ElementKey(font.id, isPreview, font.variants)
  }

  /** `notLoadedFonts`: fonts with an id and a family whose element does not exist yet. */
  function Pending(elements: map<string, string>, fonts: seq<Font>, isPreview: bool): (r: seq<Font>)
    ensures forall f :: f in r <==> f in fonts && f.id != "" && f.family != "" && KeyOf(f, isPreview) !in elements
  {
    Filter(fonts, (f: Font) => f.id != "" && f.family != "" && KeyOf(f, isPreview) !in elements)
  }

  /** The element key of each font, in order. */
  function Keys(fonts: seq<Font>, isPreview: bool): (keys: seq<string>)
    ensures |keys| == |fonts|
    decreases |fonts|
  {
    if fonts == [] then [] else Keys(fonts[..|fonts| - 1], isPreview) + [KeyOf(fonts[|fonts| - 1], isPreview)]
  }

  /** The stylesheet each font receives from the extracted rules, in order. */
  function Rules(styles: seq<FontStyle>, fonts: seq<Font>): (css: seq<string>)
    ensures |css| == |fonts|
    decreases |fonts|
  {
    if fonts == [] then [] else Rules(styles, fonts[..|fonts| - 1]) + [StylesFor(styles, fonts[|fonts| - 1].id)]
  }

  /** Position `i` of `Keys` is the key of font `i`, and of `Rules` its stylesheet. */
  lemma {:induction false} KeysAndRulesAt(fonts: seq<Font>, isPreview: bool, styles: seq<FontStyle>)
    ensures forall i :: 0 <= i < |fonts| ==> Keys(fonts, isPreview)[i] == KeyOf(fonts[i], isPreview)
    ensures forall i :: 0 <= i < |fonts| ==> Rules(styles, fonts)[i] == StylesFor(styles, fonts[i].id)
    decreases |fonts|
  {
    if fonts != [] {
      var n := |fonts| - 1;
      KeysAndRulesAt(fonts[..n], isPreview, styles);
      forall i | 0 <= i < n ensures fonts[..n][i] == fonts[i] { }
    }
  }

  lemma KeyInKeys(fonts: seq<Font>, f: Font, isPreview: bool)
    requires f in fonts
    ensures KeyOf(f, isPreview) in Keys(fonts, isPreview)
  {
    var i :| 0 <= i < |fonts| && fonts[i] == f;
    KeysAndRulesAt(fonts, isPreview, []);
    assert Keys(fonts, isPreview)[i] == KeyOf(f, isPreview);
  }

  /** The placeholders created for `keys`, in order (the first `forEach`). */
  function ReserveAll(elements: map<string, string>, keys: seq<string>): map<string, string>
    decreases |keys|
  {
    if keys == [] then elements
    else WithPlaceholder(ReserveAll(elements, keys[..|keys| - 1]), keys[|keys| - 1])
  }

  lemma ReserveAllSnoc(elements: map<string, string>, keys: seq<string>, key: string)
    ensures ReserveAll(elements, keys + [key]) == WithPlaceholder(ReserveAll(elements, keys), key)
  {
    assert (keys + [key])[..|keys|] == keys;
  }

  /** Reserving keeps every existing element, adds exactly one for each key,
      and every added element is empty. */
  lemma {:induction false} ReserveAllKeeps(elements: map<string, string>, keys: seq<string>)
    ensures var r := ReserveAll(elements, keys);
      && (forall k :: k in r <==> k in elements || k in keys)
      && (forall k :: k in elements ==> r[k] == elements[k])
      && (forall k :: k in r && k !in elements ==> r[k] == "")
    decreases |keys|
  {
    if keys != [] {
      var n := |keys| - 1;
      var init := keys[..n];
      ReserveAllKeeps(elements, init);
      assert keys == init + [keys[n]];
    }
  }

  /** The fills of the second `forEach`, in order: key `keys[i]` receives `css[i]`. */
  function FillAll(elements: map<string, string>, keys: seq<string>, css: seq<string>): map<string, string>
    requires |keys| == |css|
    decreases |keys|
  {
    if keys == [] then elements
    else WithStyles(FillAll(elements, keys[..|keys| - 1], css[..|css| - 1]), keys[|keys| - 1], css[|css| - 1])
  }

  /** Filling creates no element, never overwrites content, and leaves the
      elements of other keys alone. */
  lemma {:induction false} FillAllKeeps(elements: map<string, string>, keys: seq<string>, css: seq<string>)
    requires |keys| == |css|
    ensures var r := FillAll(elements, keys, css);
      && r.Keys == elements.Keys
      && (forall k :: k in elements && elements[k] != "" ==> r[k] == elements[k])
      && (forall k :: k in elements && k !in keys ==> r[k] == elements[k])
    decreases |keys|
  {
    if keys != [] {
      var n := |keys| - 1;
      FillAllKeeps(elements, keys[..n], css[..n]);
      assert keys == keys[..n] + [keys[n]];
    }
  }

  lemma FillAllSnoc(elements: map<string, string>, keys: seq<string>, css: seq<string>, key: string, styles: string)
    requires |keys| == |css|
    ensures FillAll(elements, keys + [key], css + [styles]) == WithStyles(FillAll(elements, keys, css), key, styles)
  {
    assert (keys + [key])[..|keys|] == keys && (css + [styles])[..|css|] == css;
  }

  /** A key no other position repeats, whose element is still empty, gets exactly its own rules. */
  lemma {:induction false} FillAllAt(elements: map<string, string>, keys: seq<string>, css: seq<string>, i: nat)
    requires |keys| == |css| && i < |keys|
    requires keys[i] in elements && elements[keys[i]] == ""
    requires forall j :: 0 <= j < |keys| && j != i ==> keys[j] != keys[i]
    ensures var r := FillAll(elements, keys, css);
      keys[i] in r && r[keys[i]] == css[i]
    decreases |keys|
  {
    var n := |keys| - 1;
    var init := keys[..n];
    FillAllKeeps(elements, init, css[..n]);
    if i == n {
      assert keys[i] !in init;
    } else {
      FillAllAt(elements, init, css[..n], i);
    }
  }

  /** With pairwise distinct keys whose elements are all empty, every key gets its own rules. */
  lemma FillAllDistinct(elements: map<string, string>, keys: seq<string>, css: seq<string>)
    requires |keys| == |css|
    requires forall i :: 0 <= i < |keys| ==> keys[i] in elements && elements[keys[i]] == ""
    requires forall i, j :: 0 <= i < j < |keys| ==> keys[i] != keys[j]
    ensures var r := FillAll(elements, keys, css);
      forall i :: 0 <= i < |keys| ==> keys[i] in r && r[keys[i]] == css[i]
  {
    forall i | 0 <= i < |keys|
      ensures var r := FillAll(elements, keys, css); keys[i] in r && r[keys[i]] == css[i]
    {
      FillAllAt(elements, keys, css, i);
    }
  }

  /** The selector each font's preview rule is checked by, in order. */
  function Selectors(fonts: seq<Font>, suffix: string): (sels: seq<string>)
    ensures |sels| == |fonts|
    decreases |fonts|
  {
    if fonts == [] then [] else Selectors(fonts[..|fonts| - 1], suffix) + [PreviewSelector(fonts[|fonts| - 1].family, suffix)]
  }

  /** The preview rule of each font, in order. */
  function PreviewRules(fonts: seq<Font>, suffix: string): (rules: seq<string>)
    ensures |rules| == |fonts|
    decreases |fonts|
  {
    if fonts == [] then [] else PreviewRules(fonts[..|fonts| - 1], suffix) + [PreviewRule(fonts[|fonts| - 1].family, suffix)]
  }

  /** Position `i` holds font `i`'s selector. */
  lemma {:induction false} SelectorsAt(fonts: seq<Font>, suffix: string)
    ensures forall i :: 0 <= i < |fonts| ==> Selectors(fonts, suffix)[i] == PreviewSelector(fonts[i].family, suffix)
    decreases |fonts|
  {
    if fonts != [] {
      var n := |fonts| - 1;
      SelectorsAt(fonts[..n], suffix);
      forall i | 0 <= i < n ensures fonts[..n][i] == fonts[i] { }
    }
  }

  /** Position `i` holds font `i`'s preview rule. */
  lemma {:induction false} PreviewRulesAt(fonts: seq<Font>, suffix: string)
    ensures forall i :: 0 <= i < |fonts| ==> PreviewRules(fonts, suffix)[i] == PreviewRule(fonts[i].family, suffix)
    decreases |fonts|
  {
    if fonts != [] {
      var n := |fonts| - 1;
      PreviewRulesAt(fonts[..n], suffix);
      forall i | 0 <= i < n ensures fonts[..n][i] == fonts[i] { }
    }
  }

  /** Each font's preview rule carries that font's selector. */
  lemma RulesHoldSelectors(fonts: seq<Font>, suffix: string)
    ensures var sels, rules := Selectors(fonts, suffix), PreviewRules(fonts, suffix);
      forall i :: 0 <= i < |fonts| ==> sels[i] == PreviewSelector(fonts[i].family, suffix) && Contains(rules[i], sels[i])
  {
    SelectorsAt(fonts, suffix);
    PreviewRulesAt(fonts, suffix);
    forall i | 0 <= i < |fonts| ensures Contains(PreviewRule(fonts[i].family, suffix), PreviewSelector(fonts[i].family, suffix)) {
      RuleHoldsSelector(fonts[i].family, suffix);
    }
  }

  /** The preview rules of the second `forEach`, in order. */
  function PreviewAll(sheet: string, sels: seq<string>, rules: seq<string>): string
    requires |sels| == |rules|
    decreases |sels|
  {
    if sels == [] then sheet
    else AppendOnce(PreviewAll(sheet, sels[..|sels| - 1], rules[..|rules| - 1]), sels[|sels| - 1], rules[|rules| - 1])
  }

  lemma PreviewAllSnoc(sheet: string, sels: seq<string>, rules: seq<string>, sel: string, rule: string)
    requires |sels| == |rules|
    ensures PreviewAll(sheet, sels + [sel], rules + [rule]) == AppendOnce(PreviewAll(sheet, sels, rules), sel, rule)
  {
    assert (sels + [sel])[..|sels|] == sels && (rules + [rule])[..|rules|] == rules;
  }

  /** The preview sheet only grows. */
  lemma {:induction false} PreviewAllExtends(sheet: string, sels: seq<string>, rules: seq<string>)
    requires |sels| == |rules|
    ensures sheet <= PreviewAll(sheet, sels, rules)
    decreases |sels|
  {
    if sels != [] {
      var n := |sels| - 1;
      PreviewAllExtends(sheet, sels[..n], rules[..n]);
      var before := PreviewAll(sheet, sels[..n], rules[..n]);
      PrefixTransitive(sheet, before, AppendOnce(before, sels[n], rules[n]));
    }
  }

  lemma PrefixTransitive(a: string, b: string, c: string)
    requires a <= b && b <= c
    ensures a <= c
  {
    assert c[..|b|][..|a|] == c[..|a|];
  }

  /** The preview sheet ends up with every selector whose rule carries it. */
  lemma {:induction false} PreviewAllHolds(sheet: string, sels: seq<string>, rules: seq<string>)
    requires |sels| == |rules|
    requires forall i :: 0 <= i < |sels| ==> Contains(rules[i], sels[i])
    ensures forall i :: 0 <= i < |sels| ==> Contains(PreviewAll(sheet, sels, rules), sels[i])
    decreases |sels|
  {
    if sels != [] {
      var n := |sels| - 1;
      var init, initRules := sels[..n], rules[..n];
      forall i | 0 <= i < n ensures Contains(initRules[i], init[i]) {
        assert initRules[i] == rules[i] && init[i] == sels[i];
      }
      PreviewAllHolds(sheet, init, initRules);
      var before := PreviewAll(sheet, init, initRules);
      var r := AppendOnce(before, sels[n], rules[n]);
      assert PreviewAll(sheet, sels, rules) == r;
      AppendOnceHolds(before, sels[n], rules[n]);
      forall i | 0 <= i < n ensures Contains(r, sels[i]) {
        assert init[i] == sels[i];
        ContainsInLonger(before, r, sels[i]);
      }
    }
  }

  lemma ContainsInLonger(s: string, u: string, t: string)
    requires s <= u && Contains(s, t)
    ensures Contains(u, t)
  {
    assert u == s + u[|s|..];
    ContainsAppend(s, u[|s|..], t);
  }

  /** What one `loadFonts` call leaves behind, and the request it sends, if any. */
  datatype LoadOutcome = LoadOutcome(elements: map<string, string>, sheet: string, request: Option<seq<Param>>)

  /** What `loadFonts` makes of the fetch response: the extracted rules, or
      `None` when the response is empty (`getStylesheet` failed) or some
      `@font-face` block has no quoted family (the extraction throws). A
      response without blocks yields no rules, `Some([])`. */
  function Fetched(response: string): Option<seq<FontStyle>> {
    if response == "" then None else ExtractFontStyles(response)
  }

  /** `loadFonts` over the document `elements` and the preview sheet `sheet`;
      `fetched` is what the fetch yields (`Fetched` of its response). */
  function LoadFontsSpec(elements: map<string, string>, sheet: string, fonts: seq<Font>, isPreview: bool,
                         text: string, selectorSuffix: string, fetched: Option<seq<FontStyle>>): (o: LoadOutcome)
    ensures o.request.None? <==> Pending(elements, fonts, isPreview) == []
    ensures o.request.None? ==> o.elements == elements && o.sheet == sheet
    ensures !isPreview ==> o.sheet == sheet
  {
    var pending := Pending(elements, fonts, isPreview);
    if pending == [] then LoadOutcome(elements, sheet, None)
    else
      var keys := Keys(pending, isPreview);
      var reserved := ReserveAll(elements, keys);
      var request := Some(StylesheetParams(pending, isPreview, text));
      match fetched
        case None => LoadOutcome(reserved, sheet, request)
        case Some(styles) =>
          LoadOutcome(FillAll(reserved, keys, Rules(styles, pending)),
                      if isPreview then PreviewAll(sheet, Selectors(pending, selectorSuffix), PreviewRules(pending, selectorSuffix)) else sheet,
                      request)
  }

  /** Nothing to load: no request, no change. */
  lemma LoadAllPresent(elements: map<string, string>, sheet: string, fonts: seq<Font>, isPreview: bool,
                       text: string, selectorSuffix: string, fetched: Option<seq<FontStyle>>)
    requires forall f :: f in fonts && f.id != "" && f.family != "" ==> KeyOf(f, isPreview) in elements
    ensures LoadFontsSpec(elements, sheet, fonts, isPreview, text, selectorSuffix, fetched)
         == LoadOutcome(elements, sheet, None)
  {
    var pending := Pending(elements, fonts, isPreview);
    assert forall i :: 0 <= i < |pending| ==> pending[i] in pending;
  }

  /** Whenever something is missing, one request names exactly the missing
      fonts, and every one of them has an element afterwards, whatever the response. */
  lemma LoadReservesBeforeFetch(elements: map<string, string>, sheet: string, fonts: seq<Font>, isPreview: bool,
                                text: string, selectorSuffix: string, fetched: Option<seq<FontStyle>>)
    requires Pending(elements, fonts, isPreview) != []
    ensures var o := LoadFontsSpec(elements, sheet, fonts, isPreview, text, selectorSuffix, fetched);
      && o.request == Some(StylesheetParams(Pending(elements, fonts, isPreview), isPreview, text))
      && forall f :: f in fonts && f.id != "" && f.family != "" ==> KeyOf(f, isPreview) in o.elements
  {
    var pending := Pending(elements, fonts, isPreview);
    var keys := Keys(pending, isPreview);
    ReserveAllKeeps(elements, keys);
    var reserved := ReserveAll(elements, keys);
    forall f | f in fonts && f.id != "" && f.family != ""
      ensures KeyOf(f, isPreview) in reserved
    {
      if KeyOf(f, isPreview) !in elements {
        KeyInKeys(pending, f, isPreview);
      }
    }
    match fetched
    case None =>
    case Some(styles) =>
      FillAllKeeps(reserved, keys, Rules(styles, pending));
  }

  /** No missing font's key names an element that already exists. */
  lemma PendingKeysAreNew(elements: map<string, string>, fonts: seq<Font>, isPreview: bool)
    ensures forall k :: k in Keys(Pending(elements, fonts, isPreview), isPreview) ==> k !in elements
  {
    var pending := Pending(elements, fonts, isPreview);
    var keys := Keys(pending, isPreview);
    KeysAndRulesAt(pending, isPreview, []);
    forall k | k in keys ensures k !in elements {
      var i :| 0 <= i < |keys| && keys[i] == k;
      assert pending[i] in pending;
    }
  }

  /** Elements that existed before the call keep their content. */
  lemma LoadKeepsExisting(elements: map<string, string>, sheet: string, fonts: seq<Font>, isPreview: bool,
                          text: string, selectorSuffix: string, fetched: Option<seq<FontStyle>>)
    ensures var o := LoadFontsSpec(elements, sheet, fonts, isPreview, text, selectorSuffix, fetched);
      forall k :: k in elements ==> k in o.elements && o.elements[k] == elements[k]
  {
    var pending := Pending(elements, fonts, isPreview);
    var keys := Keys(pending, isPreview);
    ReserveAllKeeps(elements, keys);
    match fetched
    case None =>
    case Some(styles) =>
      FillAllKeeps(ReserveAll(elements, keys), keys, Rules(styles, pending));
      PendingKeysAreNew(elements, fonts, isPreview);
  }

  /** On a failed fetch the placeholders stay empty and no preview rule is added. */
  lemma LoadFailureLeavesPlaceholders(elements: map<string, string>, sheet: string, fonts: seq<Font>, isPreview: bool,
                                      text: string, selectorSuffix: string)
    ensures var o := LoadFontsSpec(elements, sheet, fonts, isPreview, text, selectorSuffix, None);
      && o.sheet == sheet
      && forall f :: f in Pending(elements, fonts, isPreview) ==>
           KeyOf(f, isPreview) in o.elements && o.elements[KeyOf(f, isPreview)] == ""
  {
    var pending := Pending(elements, fonts, isPreview);
    ReserveAllKeeps(elements, Keys(pending, isPreview));
    forall f | f in pending ensures KeyOf(f, isPreview) in Keys(pending, isPreview) {
      KeyInKeys(pending, f, isPreview);
    }
  }

  /** A second identical call, whatever its response, requests nothing and changes nothing. */
  lemma LoadTwiceIsNoop(elements: map<string, string>, sheet: string, fonts: seq<Font>, isPreview: bool,
                        text: string, selectorSuffix: string, fetched: Option<seq<FontStyle>>,
                        text2: string, selectorSuffix2: string, fetched2: Option<seq<FontStyle>>)
    ensures var o := LoadFontsSpec(elements, sheet, fonts, isPreview, text, selectorSuffix, fetched);
      LoadFontsSpec(o.elements, o.sheet, fonts, isPreview, text2, selectorSuffix2, fetched2)
        == LoadOutcome(o.elements, o.sheet, None)
  {
    var o := LoadFontsSpec(elements, sheet, fonts, isPreview, text, selectorSuffix, fetched);
    LoadKeepsExisting(elements, sheet, fonts, isPreview, text, selectorSuffix, fetched);
    if Pending(elements, fonts, isPreview) != [] {
      LoadReservesBeforeFetch(elements, sheet, fonts, isPreview, text, selectorSuffix, fetched);
    }
    LoadAllPresent(o.elements, o.sheet, fonts, isPreview, text2, selectorSuffix2, fetched2);
  }

  /** When the missing fonts have distinct keys, each one's element receives
      exactly the rules the response holds for its id, in response order. */
  lemma LoadFillsEachFont(elements: map<string, string>, sheet: string, fonts: seq<Font>, isPreview: bool,
                          text: string, selectorSuffix: string, styles: seq<FontStyle>)
    requires var pending := Pending(elements, fonts, isPreview);
      forall i, j :: 0 <= i < j < |pending| ==> KeyOf(pending[i], isPreview) != KeyOf(pending[j], isPreview)
    ensures var o := LoadFontsSpec(elements, sheet, fonts, isPreview, text, selectorSuffix, Some(styles));
      forall f :: f in Pending(elements, fonts, isPreview) ==>
        KeyOf(f, isPreview) in o.elements && o.elements[KeyOf(f, isPreview)] == StylesFor(styles, f.id)
  {
    var pending := Pending(elements, fonts, isPreview);
    if pending != [] {
      var keys := Keys(pending, isPreview);
      var css := Rules(styles, pending);
      PendingKeysAreNew(elements, fonts, isPreview);
      KeysAndRulesAt(pending, isPreview, styles);
      FillAfterReserve(elements, keys, css);
      var r := FillAll(ReserveAll(elements, keys), keys, css);
      forall f | f in pending
        ensures KeyOf(f, isPreview) in r && r[KeyOf(f, isPreview)] == StylesFor(styles, f.id)
      {
        var i :| 0 <= i < |pending| && pending[i] == f;
        assert keys[i] == KeyOf(f, isPreview) && css[i] == StylesFor(styles, f.id);
      }
    }
  }

  /** Reserving fresh, pairwise distinct keys and then filling them gives each key its own rules. */
  lemma FillAfterReserve(elements: map<string, string>, keys: seq<string>, css: seq<string>)
    requires |keys| == |css|
    requires forall k :: k in keys ==> k !in elements
    requires forall i, j :: 0 <= i < j < |keys| ==> keys[i] != keys[j]
    ensures var r := FillAll(ReserveAll(elements, keys), keys, css);
      forall i :: 0 <= i < |keys| ==> keys[i] in r && r[keys[i]] == css[i]
  {
    ReserveAllKeeps(elements, keys);
    var reserved := ReserveAll(elements, keys);
    forall i | 0 <= i < |keys| ensures keys[i] in reserved && reserved[keys[i]] == "" {
      assert keys[i] in keys;
    }
    FillAllDistinct(reserved, keys, css);
  }

  /** The preview sheet only grows; it changes only for preview loads, and
      then carries the selector of every font that was loaded. */
  lemma LoadPreviewAppendOnly(elements: map<string, string>, sheet: string, fonts: seq<Font>, isPreview: bool,
                              text: string, selectorSuffix: string, fetched: Option<seq<FontStyle>>)
    ensures var o := LoadFontsSpec(elements, sheet, fonts, isPreview, text, selectorSuffix, fetched);
      && sheet <= o.sheet
      && (!isPreview ==> o.sheet == sheet)
      && (isPreview && fetched.Some? ==>
            forall f :: f in Pending(elements, fonts, isPreview) ==> Contains(o.sheet, PreviewSelector(f.family, selectorSuffix)))
  {
    PreviewFonts(sheet, Pending(elements, fonts, isPreview), selectorSuffix);
  }

  /** Previewing `fonts` only appends, and leaves every font's selector in the sheet. */
  lemma PreviewFonts(sheet: string, fonts: seq<Font>, suffix: string)
    ensures var r := PreviewAll(sheet, Selectors(fonts, suffix), PreviewRules(fonts, suffix));
      && sheet <= r
      && forall f :: f in fonts ==> Contains(r, PreviewSelector(f.family, suffix))
  {
    var sels := Selectors(fonts, suffix);
    var rules := PreviewRules(fonts, suffix);
    RulesHoldSelectors(fonts, suffix);
    PreviewAllExtends(sheet, sels, rules);
    PreviewAllHolds(sheet, sels, rules);
    forall f | f in fonts ensures Contains(PreviewAll(sheet, sels, rules), PreviewSelector(f.family, suffix)) {
      var i :| 0 <= i < |fonts| && fonts[i] == f;
      assert sels[i] == PreviewSelector(f.family, suffix);
    }
  }

  /** Applying the same preview twice is the same as applying it once. */
  lemma PreviewIdempotent(sheet: string, selector: string, rule: string)
    requires Contains(rule, selector)
    ensures AppendOnce(AppendOnce(sheet, selector, rule), selector, rule) == AppendOnce(sheet, selector, rule)
  {
    AppendOnceHolds(sheet, selector, rule);
  }

  /** `loadFonts`: reserve every missing element, fetch once, then fill each
      reserved element with its fonts' rules. `response` is the text the
      fetch returns (`""` when it fails). Returns the request sent, if any. */
  method LoadFonts(doc: StyleDocument, sheet: PreviewSheet, fonts: seq<Font>, isPreview: bool,
                   text: string, selectorSuffix: string, response: string)
    returns (request: Option<seq<Param>>)
    modifies doc, sheet
    ensures LoadOutcome(doc.elements, sheet.text, request)
         == LoadFontsSpec(old(doc.elements), old(sheet.text), fonts, isPreview, text, selectorSuffix, Fetched(response))
  {
    var notLoaded := Pending(doc.elements, fonts, isPreview);
    if notLoaded == [] {
      return None;
    }
    ReservePlaceholders(doc, notLoaded, isPreview);
    request := Some(StylesheetParams(notLoaded, isPreview, text));
    if response == "" {
      return;
    }
    var extracted := ExtractFontStyles(response);
    if extracted.None? {
      return;
    }
    FillPlaceholders(doc, sheet, notLoaded, extracted.value, isPreview, selectorSuffix);
  }

  /** The first `forEach` of `loadFonts`: `createStylesheet` for every font. */
  method ReservePlaceholders(doc: StyleDocument, fonts: seq<Font>, isPreview: bool)
    modifies doc
    ensures doc.elements == ReserveAll(old(doc.elements), Keys(fonts, isPreview))
  {
    var i := 0;
    while i < |fonts|
      invariant 0 <= i <= |fonts|
      invariant doc.elements == ReserveAll(old(doc.elements), Keys(fonts[..i], isPreview))
    {
      doc.CreateStylesheet(KeyOf(fonts[i], isPreview));
      assert fonts[..i + 1][..i] == fonts[..i] && fonts[..i + 1][i] == fonts[i];
      ReserveAllSnoc(old(doc.elements), Keys(fonts[..i], isPreview), KeyOf(fonts[i], isPreview));
      assert Keys(fonts[..i + 1], isPreview) == Keys(fonts[..i], isPreview) + [KeyOf(fonts[i], isPreview)];
      assert doc.elements == ReserveAll(old(doc.elements), Keys(fonts[..i + 1], isPreview));
      i := i + 1;
      assert doc.elements == ReserveAll(old(doc.elements), Keys(fonts[..i], isPreview));
    }
    assert fonts[..i] == fonts;
  }

  /** The second `forEach` of `loadFonts`: the preview rule, then `fillStylesheet`, for every font. */
  method FillPlaceholders(doc: StyleDocument, sheet: PreviewSheet, fonts: seq<Font>, styles: seq<FontStyle>,
                          isPreview: bool, selectorSuffix: string)
    modifies doc, sheet
    ensures doc.elements == FillAll(old(doc.elements), Keys(fonts, isPreview), Rules(styles, fonts))
    ensures sheet.text == if isPreview then PreviewAll(old(sheet.text), Selectors(fonts, selectorSuffix), PreviewRules(fonts, selectorSuffix)) else old(sheet.text)
  {
    assert fonts[..0] == [];
    var i := 0;
    while i < |fonts|
      invariant 0 <= i <= |fonts|
      invariant Filled(doc.elements, sheet.text, old(doc.elements), old(sheet.text), fonts[..i], styles, isPreview, selectorSuffix)
    {
      FillOne(doc, sheet, fonts, i, styles, isPreview, selectorSuffix, old(doc.elements), old(sheet.text));
      i := i + 1;
    }
    assert fonts[..i] == fonts;
  }

  /** The state after the second `forEach` has handled `done`. */
  ghost predicate Filled(elements: map<string, string>, text: string, elements0: map<string, string>, text0: string,
                         done: seq<Font>, styles: seq<FontStyle>, isPreview: bool, selectorSuffix: string)
  {
    && elements == FillAll(elements0, Keys(done, isPreview), Rules(styles, done))
    && text == if isPreview then PreviewAll(text0, Selectors(done, selectorSuffix), PreviewRules(done, selectorSuffix)) else text0
  }

  /** One round of the second `forEach`. */
  method FillOne(doc: StyleDocument, sheet: PreviewSheet, fonts: seq<Font>, i: nat, styles: seq<FontStyle>,
                 isPreview: bool, selectorSuffix: string, ghost elements0: map<string, string>, ghost text0: string)
    requires i < |fonts|
    requires Filled(doc.elements, sheet.text, elements0, text0, fonts[..i], styles, isPreview, selectorSuffix)
    modifies doc, sheet
    ensures Filled(doc.elements, sheet.text, elements0, text0, fonts[..i + 1], styles, isPreview, selectorSuffix)
  {
    if isPreview {
      PreviewStep(sheet, fonts, i, selectorSuffix, text0);
    }
    FillStep(doc, fonts, i, styles, isPreview, elements0);
  }

  /** One font's `applyFontPreview` inside the second `forEach`. */
  method PreviewStep(sheet: PreviewSheet, fonts: seq<Font>, i: nat, selectorSuffix: string, ghost start: string)
    requires i < |fonts|
    requires sheet.text == PreviewAll(start, Selectors(fonts[..i], selectorSuffix), PreviewRules(fonts[..i], selectorSuffix))
    modifies sheet
    ensures sheet.text == PreviewAll(start, Selectors(fonts[..i + 1], selectorSuffix), PreviewRules(fonts[..i + 1], selectorSuffix))
  {
    var font := fonts[i];
    assert fonts[..i + 1][..i] == fonts[..i] && fonts[..i + 1][i] == font;
    sheet.ApplyFontPreview(font, selectorSuffix);
    PreviewAllSnoc(start, Selectors(fonts[..i], selectorSuffix), PreviewRules(fonts[..i], selectorSuffix),
                   PreviewSelector(font.family, selectorSuffix), PreviewRule(font.family, selectorSuffix));
  }

  /** One font's `fillStylesheet` inside the second `forEach`. */
  method FillStep(doc: StyleDocument, fonts: seq<Font>, i: nat, styles: seq<FontStyle>, isPreview: bool,
                  ghost start: map<string, string>)
    requires i < |fonts|
    requires doc.elements == FillAll(start, Keys(fonts[..i], isPreview), Rules(styles, fonts[..i]))
    modifies doc
    ensures doc.elements == FillAll(start, Keys(fonts[..i + 1], isPreview), Rules(styles, fonts[..i + 1]))
  {
    var font := fonts[i];
    assert fonts[..i + 1][..i] == fonts[..i] && fonts[..i + 1][i] == font;
    doc.FillStylesheet(KeyOf(font, isPreview), StylesFor(styles, font.id));
    FillAllSnoc(start, Keys(fonts[..i], isPreview), Rules(styles, fonts[..i]), KeyOf(font, isPreview), StylesFor(styles, font.id));
  }
}
