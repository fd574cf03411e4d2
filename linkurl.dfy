// `createLinkUrl`: the Google Fonts stylesheet address for the fonts a page
// uses, leaving out the web-safe fonts the browser already has.

module LinkUrl {
  import opened Text
  import opened Fonts

  const AppFontBaseUrl: string := "https://fonts.googleapis.com/css"
  const AppFontDisplayParam: string := "&display=swap"

  /** An entry of the web-safe font list: its display name and its CSS family. */
  datatype WebSafeFont = WebSafeFont(name: string, family: string)

  /** `listForFontsLib.some(c => c.name === family || c.family === family)`. */
  function IsWebSafe(family: string, webSafe: seq<WebSafeFont>): (safe: bool)
    ensures safe <==> exists i :: 0 <= i < |webSafe| && (webSafe[i].name == family || webSafe[i].family == family)
  {
    exists c :: c in webSafe && (c.name == family || c.family == family)
  }

  /** The filter: a non-empty family that names no web-safe entry. */
  function IsGoogleFont(webSafe: seq<WebSafeFont>): Font -> bool {
    (f: Font) => f.family != "" && !IsWebSafe(f.family, webSafe)
  }

  /** The fonts left for the Google Fonts address, in input order. */
  function GoogleFonts(fonts: seq<Font>, webSafe: seq<WebSafeFont>): (r: seq<Font>)
    ensures |r| <= |fonts|
    ensures forall f :: f in r <==> f in fonts && f.family != "" && !IsWebSafe(f.family, webSafe)
  {
    Filter(fonts, IsGoogleFont(webSafe))
  }

  /** `/ +/g`: spaces only, not other whitespace. */
  predicate IsPlainSpace(c: char) {
    c == ' '
  }

  /** One `family=` entry: the family with space runs as `+`, then `:` and
      the comma-joined variants when that join is not empty. */
  function FamilyEntry(font: Font): (entry: string)
    ensures font.family != "" ==> entry != ""
  {
    var family := ReplaceRuns(font.family, IsPlainSpace, '+');
    var variants := Join(font.variants, ',');
    family + (if variants == "" then "" else ":" + variants)
  }

  function Entries(fonts: seq<Font>): (entries: seq<string>)
    ensures |entries| == |fonts|
    ensures forall i :: 0 <= i < |fonts| ==> entries[i] == FamilyEntry(fonts[i])
  {
    seq(|fonts|, i requires 0 <= i < |fonts| => FamilyEntry(fonts[i]))
  }

  /** The `family` parameter: the entries of the Google fonts joined with `|`. */
  function Families(fonts: seq<Font>, webSafe: seq<WebSafeFont>): string {
    Join(Entries(GoogleFonts(fonts, webSafe)), '|')
  }

  /** `createLinkUrl`. */
  function CreateLinkUrl(fonts: seq<Font>, webSafe: seq<WebSafeFont>): (url: string)
    ensures url == "" <==> forall f :: f in fonts ==> f.family == "" || IsWebSafe(f.family, webSafe)
    ensures url != "" ==>
      && AppFontBaseUrl + "?family=" <= url
      && url[|url| - |AppFontDisplayParam|..] == AppFontDisplayParam
  {
    FamiliesEmpty(fonts, webSafe);
    var families := Families(fonts, webSafe);
    if families == "" then "" else AppFontBaseUrl + "?family=" + families + AppFontDisplayParam
  }

  /** The family list is empty exactly when no font passes the filter. */
  lemma FamiliesEmpty(fonts: seq<Font>, webSafe: seq<WebSafeFont>)
    ensures Families(fonts, webSafe) == "" <==> forall f :: f in fonts ==> f.family == "" || IsWebSafe(f.family, webSafe)
  {
    var google := GoogleFonts(fonts, webSafe);
    var entries := Entries(google);
    if google != [] {
      assert google[0] in google;
      JoinStartsWithFirst(entries, '|');
    }
  }

  lemma JoinStartsWithFirst(xs: seq<string>, sep: char)
    requires |xs| >= 1
    ensures xs[0] <= Join(xs, sep)
  {
  }

  /** The address lists the entries of exactly the Google fonts, in input order:
      splitting its family parameter on `|` gives them back. */
  lemma {:induction false} LinkUrlListsEntries(fonts: seq<Font>, webSafe: seq<WebSafeFont>)
    requires forall f :: f in fonts ==> '|' !in f.family && forall v :: v in f.variants ==> '|' !in v
    requires GoogleFonts(fonts, webSafe) != []
    ensures var url := CreateLinkUrl(fonts, webSafe);
      && url == AppFontBaseUrl + "?family=" + Families(fonts, webSafe) + AppFontDisplayParam
      && Split(Families(fonts, webSafe), '|') == Entries(GoogleFonts(fonts, webSafe))
  {
    var google := GoogleFonts(fonts, webSafe);
    var entries := Entries(google);
    forall i | 0 <= i < |entries| ensures '|' !in entries[i] {
      var f := google[i];
      assert f in google;
      ReplaceRunsAvoids(f.family, IsPlainSpace, '+', '|');
      JoinAvoids(f.variants, ',', '|');
    }
    SplitJoin(entries, '|');
    FamiliesEmpty(fonts, webSafe);
    assert google[0] in google;
  }

  /** Roboto with two variants and Open Sans without any are requested; Arial is web-safe. */
  lemma LinkUrlExample()
    ensures CreateLinkUrl(ExampleFonts(), ExampleWebSafe())
         == AppFontBaseUrl + "?family=" + "Roboto:400,700|Open+Sans" + AppFontDisplayParam
  {
    ExampleFamilies();
    UrlOfFamilies(ExampleFonts(), ExampleWebSafe(), "Roboto:400,700|Open+Sans");
  }

  lemma UrlOfFamilies(fonts: seq<Font>, webSafe: seq<WebSafeFont>, families: string)
    requires Families(fonts, webSafe) == families && families != ""
    ensures CreateLinkUrl(fonts, webSafe) == AppFontBaseUrl + "?family=" + families + AppFontDisplayParam
  {
  }

  lemma ExampleFamilies()
    ensures Families(ExampleFonts(), ExampleWebSafe()) == "Roboto:400,700|Open+Sans"
  {
    ExampleFilter();
    ExampleEntries();
    ExampleJoin();
  }

  lemma ExampleJoin()
    ensures Join(["Roboto:400,700", "Open+Sans"], '|') == "Roboto:400,700|Open+Sans"
  {
    var entries := ["Roboto:400,700", "Open+Sans"];
    assert entries[1..] == ["Open+Sans"];
    assert Join(entries, '|') == "Roboto:400,700" + ['|'] + "Open+Sans";
  }

  function ExampleFonts(): seq<Font> {
    [Named("Roboto", ["400", "700"]), Named("Arial", []), Named("Open Sans", [])]
  }

  function ExampleWebSafe(): seq<WebSafeFont> {
    [WebSafeFont("Arial", "Arial, Helvetica, sans-serif")]
  }

  lemma ExampleFilter()
    ensures GoogleFonts(ExampleFonts(), ExampleWebSafe()) == [Named("Roboto", ["400", "700"]), Named("Open Sans", [])]
  {
    var webSafe := ExampleWebSafe();
    var fonts := ExampleFonts();
    var p := IsGoogleFont(webSafe);
    assert !IsWebSafe("Roboto", webSafe);
    assert IsWebSafe("Arial", webSafe) by {
      assert webSafe[0] in webSafe;
    }
    assert !IsWebSafe("Open Sans", webSafe);
    assert fonts[1..] == [fonts[1], fonts[2]] && fonts[1..][1..] == [fonts[2]] && [fonts[2]][1..] == [];
    assert Filter([fonts[2]], p) == [fonts[2]];
    assert Filter(fonts[1..], p) == [fonts[2]];
  }

  lemma ExampleEntries()
    ensures Entries([Named("Roboto", ["400", "700"]), Named("Open Sans", [])]) == ["Roboto:400,700", "Open+Sans"]
  {
    EntryRoboto();
    EntryOpenSans();
  }

  lemma EntryRoboto()
    ensures FamilyEntry(Named("Roboto", ["400", "700"])) == "Roboto:400,700"
  {
    ReplaceRunsNoRun("Roboto", IsPlainSpace, '+');
    var variants := ["400", "700"];
    assert variants[1..] == ["700"];
    assert Join(variants, ',') == "400" + [','] + "700";
    assert "400" + [','] + "700" == "400,700";
  }

  lemma EntryOpenSans()
    ensures FamilyEntry(Named("Open Sans", [])) == "Open+Sans"
  {
    ReplaceRunsBetween("Open", " ", "Sans", IsPlainSpace, '+');
    assert "Open" + " " + "Sans" == "Open Sans";
    assert "Open" + "+" + "Sans" == "Open+Sans";
  }

  /** Only spaces are replaced: a tab inside a family is kept. */
  lemma TabIsKept()
    ensures FamilyEntry(Named("Open\tSans", [])) == "Open\tSans"
  {
    ReplaceRunsNoRun("Open\tSans", IsPlainSpace, '+');
  }
}
