/** The text sanitisers of lib/functions.js: the recursive block splicer
    `strip_html_block`, the fixed chain of inline-tag removals
    `strip_html_tags`, and the absent-date guard of `convert_date`. */
module Functions {
  import opened Wrappers
  import opened JsString

  /** `"<" + tag`: matches the opening tag with or without attributes. */
  function OpenMarker(tag: string): string
  {
    "<" + tag
  }

  /** `"</" + tag + ">"`: the full closing tag. */
  function CloseMarker(tag: string): string
  {
    "</" + tag + ">"
  }

  /** `text.substring(0, open) + text.substring(close + tag.length + 3)`:
      cut from the opening marker through the end of the closing marker. */
  function SpliceBlock(text: string, tag: string, open: nat, close: nat): (r: string)
    requires open <= |text| && close + |tag| + 3 <= |text|
    ensures |r| == |text| - (close + |tag| + 3) + open
  {
    text[..open] + text[close + |tag| + 3..]
  }

  /** The correction of the open-after-close branch, applied to the first
      splice: `new_text.substring(0, close) + new_text.substring(open + tag.length + 1)`. */
  function SpliceBack(newText: string, tag: string, open: nat, close: nat): string
    requires close <= |newText|
  {
    newText[..close] + SubstringFrom(newText, open + |tag| + 1)
  }

  /** Neither marker is left. */
  predicate MarkersGone(text: string, tag: string)
  {
    IndexOf(text, OpenMarker(tag)) == -1 && IndexOf(text, CloseMarker(tag)) == -1
  }

  /** `strip_html_block(text, tag)`. */
  function StripHtmlBlock(text: string, tag: string): (r: string)
    ensures |r| <= |text|
    decreases |text|
  {
    var open := IndexOf(text, OpenMarker(tag));
    var close := IndexOf(text, CloseMarker(tag));
    if open == -1 || close == -1 then text
    else
      var newText := SpliceBlock(text, tag, open, close);
      if MarkersGone(newText, tag) then
        FirstSpliceShrinks(text, tag, open, close);
        newText
      else if open < close then StripHtmlBlock(newText, tag)
      else if open > close then
        var again := SpliceBack(newText, tag, open, close);
        SpliceBackShrinks(text, tag, open, close);
        StripHtmlBlock(again, tag)
      else text
  }

  /** In the open-after-close branch, the two splices together remove
      `2 * |tag| + 4` characters starting at `close` (fewer when the text ends
      sooner), so the recursive call is on a strictly shorter string. */
  lemma SpliceBackShrinks(text: string, tag: string, open: nat, close: nat)
    requires open <= |text| && close + |tag| + 3 <= |text| && close < open
    ensures SpliceBack(SpliceBlock(text, tag, open, close), tag, open, close)
            == text[..close] + SubstringFrom(text, close + 2 * |tag| + 4)
    ensures |SpliceBack(SpliceBlock(text, tag, open, close), tag, open, close)| < |text|
  {
    var newText := SpliceBlock(text, tag, open, close);
    var l := |tag| + 3;
    assert newText[..close] == text[..close];
    assert forall j :: open <= j < |newText| ==> newText[j] == text[close + l + (j - open)];
    var tail := SubstringFrom(newText, open + |tag| + 1);
    var tail' := SubstringFrom(text, close + 2 * |tag| + 4);
    assert |tail| == |tail'|;
    forall k | 0 <= k < |tail| ensures tail[k] == tail'[k] {
      assert tail[k] == newText[open + |tag| + 1 + k];
      assert tail'[k] == text[close + 2 * |tag| + 4 + k];
    }
  }

  /** A text on which `strip_html_block` stops at once: one marker is missing,
      or both are first found at the same index and splicing leaves a marker
      (the final `else`, which returns the text untouched). */
  predicate Settled(text: string, tag: string)
  {
    var open := IndexOf(text, OpenMarker(tag));
    var close := IndexOf(text, CloseMarker(tag));
    open == -1 || close == -1 ||
    (open == close && !MarkersGone(SpliceBlock(text, tag, open, close), tag))
  }

  /** If either marker is missing, the text comes back unchanged. */
  lemma StripWithoutMarker(text: string, tag: string)
    requires !Includes(text, OpenMarker(tag)) || !Includes(text, CloseMarker(tag))
    ensures StripHtmlBlock(text, tag) == text
  {
  }

  /** When the first opening marker comes before the first closing marker,
      the result is that of stripping the spliced text. */
  lemma StripRegularStep(text: string, tag: string)
    requires Includes(text, OpenMarker(tag)) && Includes(text, CloseMarker(tag))
    requires IndexOf(text, OpenMarker(tag)) < IndexOf(text, CloseMarker(tag))
    ensures StripHtmlBlock(text, tag)
            == StripHtmlBlock(SpliceBlock(text, tag, IndexOf(text, OpenMarker(tag)), IndexOf(text, CloseMarker(tag))), tag)
  {
    var newText := SpliceBlock(text, tag, IndexOf(text, OpenMarker(tag)), IndexOf(text, CloseMarker(tag)));
    if MarkersGone(newText, tag) {
      StripWithoutMarker(newText, tag);
    }
  }

  /** When the first closing marker comes before the first opening marker and
      the first splice leaves a marker, the result is that of stripping the
      text with `2 * |tag| + 4` characters removed at the closing marker. */
  lemma StripBackStep(text: string, tag: string, open: nat, close: nat)
    requires open == IndexOf(text, OpenMarker(tag)) && close == IndexOf(text, CloseMarker(tag))
    requires open > close && !MarkersGone(SpliceBlock(text, tag, open, close), tag)
    ensures StripHtmlBlock(text, tag) == StripHtmlBlock(text[..close] + SubstringFrom(text, close + 2 * |tag| + 4), tag)
  {
    SpliceBackShrinks(text, tag, open, close);
  }

  /** A first splice that leaves no marker is strictly shorter than the text. */
  lemma FirstSpliceShrinks(text: string, tag: string, open: nat, close: nat)
    requires open <= |text| && OccursAt(text, CloseMarker(tag), close)
    requires MarkersGone(SpliceBlock(text, tag, open, close), tag)
    ensures |SpliceBlock(text, tag, open, close)| < |text|
  {
    CloseMarkerKept(text, tag, open, close);
  }

  /** When the opening marker lies after the whole closing marker, the first
      splice keeps `text[..open]` and with it the closing marker. */
  lemma CloseMarkerKept(text: string, tag: string, open: nat, close: nat)
    requires open <= |text| && OccursAt(text, CloseMarker(tag), close)
    ensures open >= close + |tag| + 3 ==> OccursAt(SpliceBlock(text, tag, open, close), CloseMarker(tag), close)
  {
    if open >= close + |tag| + 3 {
      var newText := SpliceBlock(text, tag, open, close);
      assert newText[close..close + |tag| + 3] == text[close..close + |tag| + 3];
    }
  }

  /** `strip_html_block` leaves a text unchanged exactly when it is settled. */
  lemma {:induction false} StripFixedIff(text: string, tag: string)
    ensures StripHtmlBlock(text, tag) == text <==> Settled(text, tag)
  {
    var open := IndexOf(text, OpenMarker(tag));
    var close := IndexOf(text, CloseMarker(tag));
    if open != -1 && close != -1 {
      var newText := SpliceBlock(text, tag, open, close);
      if MarkersGone(newText, tag) {
        FirstSpliceShrinks(text, tag, open, close);
      } else if open < close {
        assert |StripHtmlBlock(newText, tag)| <= |newText| < |text|;
      } else if open > close {
        SpliceBackShrinks(text, tag, open, close);
      }
    }
  }

  /** Every result of `strip_html_block` is settled. */
  lemma {:induction false} StripSettles(text: string, tag: string)
    ensures Settled(StripHtmlBlock(text, tag), tag)
    decreases |text|
  {
    var open := IndexOf(text, OpenMarker(tag));
    var close := IndexOf(text, CloseMarker(tag));
    if open != -1 && close != -1 {
      var newText := SpliceBlock(text, tag, open, close);
      if MarkersGone(newText, tag) {
      } else if open < close {
        StripSettles(newText, tag);
      } else if open > close {
        SpliceBackShrinks(text, tag, open, close);
        StripSettles(SpliceBack(newText, tag, open, close), tag);
      }
    }
  }

  /** Stripping the same tag a second time changes nothing. */
  lemma StripIdempotent(text: string, tag: string)
    ensures StripHtmlBlock(StripHtmlBlock(text, tag), tag) == StripHtmlBlock(text, tag)
  {
    StripSettles(text, tag);
    StripFixedIff(StripHtmlBlock(text, tag), tag);
  }

  /** The nine literal tokens `strip_html_tags` removes, in order. */
  const INLINE_TOKENS: seq<string> :=
    ["<p>", "</p>", "<ol>", "</ol>", "<li>", "</li>", "<br />", "<strong>", "</strong>"]

  /** The chain `text.replaceAll(tokens[0], "").replaceAll(tokens[1], "")...`. */
  function RemoveEach(text: string, tokens: seq<string>): (r: string)
    ensures |r| <= |text|
    ensures (forall k :: 0 <= k < |tokens| ==> !Includes(text, tokens[k])) ==> r == text
    decreases |tokens|
  {
    if |tokens| == 0 then text
    else RemoveEach(RemoveAll(text, tokens[0]), tokens[1..])
  }

  /** `strip_html_tags(text)`; a falsy input (`null`, `undefined`, "") is returned as it is. */
  function StripHtmlTags(text: Option<string>): (r: Option<string>)
    ensures text.None? ==> r.None?
    ensures text.Some? ==> r.Some? && |r.value| <= |text.value|
    ensures text == Some("") ==> r == text
    ensures text.Some? && (forall k :: 0 <= k < |INLINE_TOKENS| ==> !Includes(text.value, INLINE_TOKENS[k]))
            ==> r == text
  {
    match text
    case None => None
    case Some(s) => if s == "" then text else Some(RemoveEach(s, INLINE_TOKENS))
  }

  /** The removals run in the listed order: paragraph, list and list-item tags,
      line breaks, then bold tags. */
  lemma StripHtmlTagsOrder(s: string)
    requires s != ""
    ensures StripHtmlTags(Some(s)) == Some(
      RemoveAll(RemoveAll(RemoveAll(RemoveAll(RemoveAll(RemoveAll(RemoveAll(RemoveAll(RemoveAll(s,
        "<p>"), "</p>"), "<ol>"), "</ol>"), "<li>"), "</li>"), "<br />"), "<strong>"), "</strong>"))
  {
    var t := INLINE_TOKENS;
    assert t[1..] == ["</p>", "<ol>", "</ol>", "<li>", "</li>", "<br />", "<strong>", "</strong>"];
    assert t[1..][1..] == ["<ol>", "</ol>", "<li>", "</li>", "<br />", "<strong>", "</strong>"];
    assert t[1..][1..][1..] == ["</ol>", "<li>", "</li>", "<br />", "<strong>", "</strong>"];
    assert t[1..][1..][1..][1..] == ["<li>", "</li>", "<br />", "<strong>", "</strong>"];
    assert t[1..][1..][1..][1..][1..] == ["</li>", "<br />", "<strong>", "</strong>"];
    assert t[1..][1..][1..][1..][1..][1..] == ["<br />", "<strong>", "</strong>"];
    assert t[1..][1..][1..][1..][1..][1..][1..] == ["<strong>", "</strong>"];
    assert t[1..][1..][1..][1..][1..][1..][1..][1..] == ["</strong>"];
    assert t[1..][1..][1..][1..][1..][1..][1..][1..][1..] == [];
  }

  /** `convert_date(date)`: an absent or empty date gives `undefined`; any other
      date is handed to the locale formatter, modelled as `render`. */
  function ConvertDate(date: Option<string>, render: string -> string): (r: Option<string>)
    ensures r.None? <==> date.None? || date == Some("")
    ensures r.Some? ==> r.value == render(date.value)
  {
    match date
    case None => None
    case Some(d) => if d == "" then None else Some(render(d))
  }
}
