// The header's decision rules: which sort order a menu action selects,
// what search line the search box yields, what a tab click resets, and
// when the order button shows as active.

module Header {
  import opened Text
  import opened Fonts

  /** A value handed to a callback: a string, or anything else (a number, an object, `null`, `undefined`). */
  datatype JsValue = JsString(s: string) | NotString

  /** The sort orders the catalog accepts. */
  const Orders: seq<string> := ["alpha", "date", "popularity", "style", "trending"]
  const DefaultOrder: string := "popularity"

  /** `handleOrderAction`: the order passed to `setOrder`, or `None` when it is not called. */
  function HandleOrderAction(action: JsValue): (wanted: Option<string>)
    ensures wanted.Some? <==> action.JsString? && action.s != ""
    ensures wanted.Some? ==> wanted.value in Orders
    ensures wanted.Some? && action.s in Orders ==> wanted.value == action.s
    ensures wanted.Some? && action.s !in Orders ==> wanted.value == DefaultOrder
  {
    if action.JsString? && action.s != "" then
      Some(if action.s in Orders then action.s else DefaultOrder)
    else None
  }

  /** Selecting the order that was just selected selects it again. */
  lemma OrderActionIdempotent(action: JsValue)
    requires HandleOrderAction(action).Some?
    ensures HandleOrderAction(JsString(HandleOrderAction(action).value)) == HandleOrderAction(action)
  {
  }

  /** `orderButton.isActive`. */
  function OrderButtonActive(order: string): bool {
    order != DefaultOrder
  }

  /** After a menu action that sets an order, the button is active exactly
      when the action named one of the other accepted orders. */
  lemma OrderActionActivates(action: JsValue)
    requires HandleOrderAction(action).Some?
    ensures OrderButtonActive(HandleOrderAction(action).value)
      <==> action.s in Orders && action.s != DefaultOrder
  {
  }

  /** An unknown order falls back to the default, and the button then shows as inactive. */
  lemma UnknownOrderDeactivates(s: string)
    requires s != "" && s !in Orders
    ensures HandleOrderAction(JsString(s)) == Some(DefaultOrder)
    ensures !OrderButtonActive(HandleOrderAction(JsString(s)).value)
  {
  }

  /** The body of `onSearch`: the trimmed input when its `length` (in
      UTF-16 code units) is more than 2, else `None` (`null`). `None` input
      is a missing element. */
  function SearchLine(input: Option<string>): (line: Option<string>)
    ensures line.Some? <==> input.Some? && Utf16Length(Trim(input.value)) > 2
    ensures line.Some? ==> line.value == Trim(input.value)
  {
    if input.Some? && Utf16Length(Trim(input.value)) > 2 then Some(Trim(input.value)) else None
  }

  /** A search line, typed in again, yields itself. */
  lemma SearchLineIdempotent(input: Option<string>)
    requires SearchLine(input).Some?
    ensures SearchLine(SearchLine(input)) == SearchLine(input)
  {
    TrimIdempotent(input.value);
    SearchLineOfTrimmed(Trim(input.value));
  }

  lemma SearchLineOfTrimmed(t: string)
    requires Trim(t) == t && Utf16Length(t) > 2
    ensures SearchLine(Some(t)) == Some(t)
  {
  }

  /** Whitespace before and after the input, each of any length, never changes the search line. */
  lemma SearchLineIgnoresPadding(before: string, text: string, after: string)
    requires forall k :: 0 <= k < |before| ==> IsSpace(before[k])
    requires forall k :: 0 <= k < |after| ==> IsSpace(after[k])
    ensures SearchLine(Some(before + text + after)) == SearchLine(Some(text))
  {
    PaddedTrim(before, text, after);
  }

  /** A piece with non-space ends, padded with whitespace, is the search
      line when it has more than two code units, and there is none otherwise. */
  lemma SearchLineOfPadded(before: string, text: string, after: string)
    requires forall k :: 0 <= k < |before| ==> IsSpace(before[k])
    requires forall k :: 0 <= k < |after| ==> IsSpace(after[k])
    requires text == [] || (!IsSpace(text[0]) && !IsSpace(text[|text| - 1]))
    ensures SearchLine(Some(before + text + after)) == if Utf16Length(text) > 2 then Some(text) else None
  {
    TrimOfPadded(before, text, after);
  }

  /** A character outside the Basic Multilingual Plane counts twice, so
      `"a😀"`, two characters but three code units, is a search line. */
  lemma SearchLineCountsCodeUnits()
    ensures SearchLine(Some(" a\U{1F600} ")) == Some("a\U{1F600}")
  {
    var t := "a\U{1F600}";
    assert t[1..] == "\U{1F600}" && t[1..][1..] == [];
    assert Utf16Length(t) == 3;
    assert " " + t + " " == " a\U{1F600} ";
    SearchLineOfPadded(" ", t, " ");
  }

  /** Two characters are too short for a search line. */
  lemma SearchLineTooShort()
    ensures SearchLine(Some(" ab ")) == None
  {
    var t := "ab";
    assert t[1..] == "b" && t[1..][1..] == [];
    assert Utf16Length(t) == 2;
    assert " " + t + " " == " ab ";
    SearchLineOfPadded(" ", t, " ");
  }

  /** The header's part of the picker's state. */
  datatype HeaderState = HeaderState(activeTab: string, isMiniature: bool, searchLine: Option<string>, order: string)

  /** `clickBound`: a tab click with a string name selects that tab, leaves
      preview mode and clears the search; any other value changes nothing. */
  function ClickBound(state: HeaderState, name: JsValue): (next: HeaderState)
    ensures next.order == state.order
    ensures name.JsString? ==> next.activeTab == name.s && !next.isMiniature && next.searchLine == None
    ensures name.NotString? ==> next == state
  {
    if name.JsString? then state.(activeTab := name.s, isMiniature := false, searchLine := None)
    else state
  }

  /** Clicking the same tab twice is the same as clicking it once. */
  lemma ClickBoundIdempotent(state: HeaderState, name: JsValue)
    ensures ClickBound(ClickBound(state, name), name) == ClickBound(state, name)
  {
  }
}
