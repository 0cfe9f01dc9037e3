/** The outputs pinned by test/tests.js, proved for the model of lib/functions.js. */
module FunctionsExamples {
  import opened Wrappers
  import opened JsString
  import opened Functions

  /** No occurrence of `p` can start inside `a`, whatever follows it: at every
      index of `a`, one of the next (at most three) characters, still inside
      `a`, differs from the corresponding character of `p`. */
  predicate NoStartIn(a: string, p: string)
    requires |p| >= 2
  {
    forall i :: 0 <= i < |a| ==> MismatchAt(a, p, i)
  }

  predicate MismatchAt(a: string, p: string, i: nat)
    requires |p| >= 2 && i < |a|
  {
    a[i] != p[0] || (i + 1 < |a| && a[i + 1] != p[1]) || (|p| >= 3 && i + 2 < |a| && a[i + 2] != p[2])
  }

  lemma NoStartInConcat(a: string, b: string, p: string)
    requires |p| >= 2 && NoStartIn(a, p) && NoStartIn(b, p)
    ensures NoStartIn(a + b, p)
  {
    var s := a + b;
    forall i | 0 <= i < |s| ensures MismatchAt(s, p, i) {
      if i < |a| {
        assert MismatchAt(a, p, i);
        assert s[i] == a[i];
        if i + 1 < |a| { assert s[i + 1] == a[i + 1]; }
        if i + 2 < |a| { assert s[i + 2] == a[i + 2]; }
      } else {
        var j := i - |a|;
        assert MismatchAt(b, p, j);
        assert s[i] == b[j];
        if j + 1 < |b| { assert s[i + 1] == b[j + 1]; }
        if j + 2 < |b| { assert s[i + 2] == b[j + 2]; }
      }
    }
  }

  /** A prefix in which no occurrence can start shifts `indexOf` by its length. */
  lemma SkipPrefix(a: string, b: string, p: string)
    requires |p| >= 2 && NoStartIn(a, p)
    ensures IndexOf(a + b, p) == if IndexOf(b, p) == -1 then -1 else |a| + IndexOf(b, p)
  {
    var s := a + b;
    NoneInPrefix(a, b, p);
    ShiftedOccurrences(a, b, p);
    var j := IndexOf(b, p);
    if j != -1 {
      assert OccursAt(s, p, |a| + j);
      forall i | 0 <= i < |a| + j ensures !OccursAt(s, p, i) {
        if i >= |a| { assert !OccursAt(b, p, i - |a|); }
      }
      IndexOfIs(s, p, |a| + j);
    } else {
      forall i ensures !OccursAt(s, p, i) {
        if i >= |a| { assert !OccursAt(b, p, i - |a|); }
      }
    }
  }

  /** No occurrence of `p` in `a + b` starts inside `a`. */
  lemma NoneInPrefix(a: string, b: string, p: string)
    requires |p| >= 2 && NoStartIn(a, p)
    ensures forall i :: 0 <= i < |a| ==> !OccursAt(a + b, p, i)
  {
    var s := a + b;
    forall i | 0 <= i < |a| ensures !OccursAt(s, p, i) {
      assert MismatchAt(a, p, i);
      if i + |p| <= |s| {
        var w := s[i..i + |p|];
        if a[i] != p[0] {
          assert w[0] == a[i];
        } else if i + 1 < |a| && a[i + 1] != p[1] {
          assert w[1] == a[i + 1];
        } else {
          assert w[2] == a[i + 2];
        }
      }
    }
  }

  /** The occurrences in `a + b` from `|a|` on are those of `b`, shifted. */
  lemma ShiftedOccurrences(a: string, b: string, p: string)
    ensures forall i :: 0 <= i ==> (OccursAt(a + b, p, |a| + i) <==> OccursAt(b, p, i))
  {
    var s := a + b;
    forall i | 0 <= i ensures OccursAt(s, p, |a| + i) <==> OccursAt(b, p, i) {
      if |a| + i + |p| <= |s| {
        assert s[|a| + i..|a| + i + |p|] == b[i..i + |p|];
      }
    }
  }

  /** A text that starts with `p` has `indexOf(p) == 0`. */
  lemma AtStart(p: string, c: string)
    ensures IndexOf(p + c, p) == 0
  {
    assert (p + c)[0..|p|] == p;
    IndexOfIs(p + c, p, 0);
  }

  /** A text in which no occurrence can start does not contain `p`. */
  lemma Absent(s: string, p: string)
    requires |p| >= 2 && NoStartIn(s, p)
    ensures IndexOf(s, p) == -1
  {
    SkipPrefix(s, "", p);
    assert s + "" == s;
  }

  lemma Markers()
    ensures OpenMarker("div") == "<div" && CloseMarker("div") == "</div>"
    ensures OpenMarker("p") == "<p" && CloseMarker("p") == "</p>"
  {
  }

  /** One round that splices a block away and leaves no marker. */
  lemma StripOnce(text: string, tag: string, open: nat, close: nat)
    requires IndexOf(text, OpenMarker(tag)) == open && IndexOf(text, CloseMarker(tag)) == close
    requires close + |tag| + 3 <= |text| && open <= |text|
    requires MarkersGone(SpliceBlock(text, tag, open, close), tag)
    ensures StripHtmlBlock(text, tag) == SpliceBlock(text, tag, open, close)
  {
  }

  /** One round that splices an earlier opening marker with a later closing one. */
  lemma StripStepAt(text: string, tag: string, open: nat, close: nat)
    requires IndexOf(text, OpenMarker(tag)) == open && IndexOf(text, CloseMarker(tag)) == close
    requires open < close && close + |tag| + 3 <= |text|
    ensures StripHtmlBlock(text, tag) == StripHtmlBlock(SpliceBlock(text, tag, open, close), tag)
  {
    StripRegularStep(text, tag);
  }

  /** `strip_html_block("Hello world", "div") == "Hello world"`. */
  lemma NoTagExample()
    ensures StripHtmlBlock("Hello world", "div") == "Hello world"
  {
    Markers();
    Absent("Hello world", "<div");
    StripWithoutMarker("Hello world", "div");
  }

  lemma SingleBlockOpen()
    ensures IndexOf("<div" + ">Hello</div>", OpenMarker("div")) == 0
  {
    Markers();
    AtStart("<div", ">Hello</div>");
  }

  lemma SingleBlockClose()
    ensures IndexOf("<div>Hello" + "</div>", CloseMarker("div")) == 10
  {
    Markers();
    SkipPrefix("<div>Hello", "</div>", "</div>");
    AtStart("</div>", "");
    assert "</div>" + "" == "</div>";
  }

  lemma SingleBlockText()
    ensures "<div>Hello</div>" == "<div" + ">Hello</div>" == "<div>Hello" + "</div>"
    ensures SpliceBlock("<div>Hello</div>", "div", 0, 10) == ""
    ensures MarkersGone("", "div")
  {
  }

  /** `strip_html_block("<div>Hello</div>", "div") == ""`. */
  lemma SingleBlockExample()
    ensures StripHtmlBlock("<div>Hello</div>", "div") == ""
  {
    SingleBlockText();
    SingleBlockOpen();
    SingleBlockClose();
    StripOnce("<div>Hello</div>", "div", 0, 10);
  }

  lemma ReturnThisOpen()
    ensures IndexOf("return this" + "<div>World" + "</div>", OpenMarker("div")) == 11
  {
    Markers();
    assert "return this" + "<div>World" + "</div>" == "return this" + ("<div" + (">World" + "</div>"));
    AtStart("<div", ">World" + "</div>");
    SkipPrefix("return this", "<div" + (">World" + "</div>"), "<div");
  }

  lemma ReturnThisClose()
    ensures IndexOf("return this" + "<div>World" + "</div>", CloseMarker("div")) == 21
  {
    Markers();
    NoStartInConcat("return this", "<div>World", "</div>");
    AtStart("</div>", "");
    assert "</div>" + "" == "</div>";
    SkipPrefix("return this" + "<div>World", "</div>", "</div>");
  }

  lemma ReturnThisGone()
    ensures MarkersGone("return this", "div")
  {
    Markers();
    Absent("return this", "<div");
    Absent("return this", "</div>");
  }

  /** The second round of `TwoBlocksExample`. */
  lemma ReturnThisExample()
    ensures StripHtmlBlock("return this" + "<div>World" + "</div>", "div") == "return this"
  {
    ReturnThisOpen();
    ReturnThisClose();
    var t := "return this" + "<div>World" + "</div>";
    assert SpliceBlock(t, "div", 11, 21) == "return this";
    ReturnThisGone();
    StripOnce(t, "div", 11, 21);
  }

  lemma TwoBlocksOpen()
    ensures IndexOf("<div>Hello" + "</div>" + "return this" + "<div>World" + "</div>", OpenMarker("div")) == 0
  {
    Markers();
    var rest := "return this" + "<div>World" + "</div>";
    assert "<div>Hello" + "</div>" + "return this" + "<div>World" + "</div>" == "<div" + (">Hello" + "</div>" + rest);
    AtStart("<div", ">Hello" + "</div>" + rest);
  }

  lemma TwoBlocksClose()
    ensures IndexOf("<div>Hello" + "</div>" + "return this" + "<div>World" + "</div>", CloseMarker("div")) == 10
  {
    Markers();
    var rest := "return this" + "<div>World" + "</div>";
    assert "<div>Hello" + "</div>" + "return this" + "<div>World" + "</div>" == "<div>Hello" + ("</div>" + rest);
    AtStart("</div>", rest);
    SkipPrefix("<div>Hello", "</div>" + rest, "</div>");
  }

  /** `strip_html_block("<div>Hello</div>return this<div>World</div>", "div") == "return this"`:
      two rounds, one per block. */
  lemma TwoBlocksExample()
    ensures StripHtmlBlock("<div>Hello" + "</div>" + "return this" + "<div>World" + "</div>", "div")
            == "return this"
  {
    var t := "<div>Hello" + "</div>" + "return this" + "<div>World" + "</div>";
    TwoBlocksOpen();
    TwoBlocksClose();
    assert SpliceBlock(t, "div", 0, 10) == "return this" + "<div>World" + "</div>";
    StripStepAt(t, "div", 0, 10);
    ReturnThisExample();
  }

  lemma NestedOtherTagClose()
    ensures IndexOf("<div>" + "<span>Hello" + "</span>" + "</div>", CloseMarker("div")) == 23
  {
    Markers();
    NoStartInConcat("<div>", "<span>Hello", "</div>");
    NoStartInConcat("<div>" + "<span>Hello", "</span>", "</div>");
    AtStart("</div>", "");
    assert "</div>" + "" == "</div>";
    SkipPrefix("<div>" + "<span>Hello" + "</span>", "</div>", "</div>");
  }

  lemma NestedOtherTagOpen()
    ensures IndexOf("<div>" + "<span>Hello" + "</span>" + "</div>", OpenMarker("div")) == 0
  {
    Markers();
    var rest := ">" + "<span>Hello" + "</span>" + "</div>";
    assert "<div>" + "<span>Hello" + "</span>" + "</div>" == "<div" + rest;
    AtStart("<div", rest);
  }

  lemma NestedOtherTagSplice()
    ensures SpliceBlock("<div>" + "<span>Hello" + "</span>" + "</div>", "div", 0, 23) == ""
    ensures MarkersGone("", "div")
  {
  }

  /** `strip_html_block("<div><span>Hello</span></div>", "div") == ""`. */
  lemma NestedOtherTagExample()
    ensures StripHtmlBlock("<div>" + "<span>Hello" + "</span>" + "</div>", "div") == ""
  {
    NestedOtherTagOpen();
    NestedOtherTagClose();
    NestedOtherTagSplice();
    StripOnce("<div>" + "<span>Hello" + "</span>" + "</div>", "div", 0, 23);
  }

  lemma SameTagNestedOpen()
    ensures IndexOf("before" + "<div>" + "<div>Hello hi " + "<div>Hello hi  " + "</div>" + " " + "</div>" + "</div>",
                    OpenMarker("div")) == 6
  {
    Markers();
    var rest := ">" + "<div>Hello hi " + "<div>Hello hi  " + "</div>" + " " + "</div>" + "</div>";
    assert "before" + "<div>" + "<div>Hello hi " + "<div>Hello hi  " + "</div>" + " " + "</div>" + "</div>"
           == "before" + ("<div" + rest);
    AtStart("<div", rest);
    Absent("before", "<div");
    SkipPrefix("before", "<div" + rest, "<div");
  }

  lemma SameTagNestedClose()
    ensures IndexOf("before" + "<div>" + "<div>Hello hi " + "<div>Hello hi  " + "</div>" + " " + "</div>" + "</div>",
                    CloseMarker("div")) == 40
  {
    Markers();
    var before := "before" + "<div>" + "<div>Hello hi " + "<div>Hello hi  ";
    var rest := " " + "</div>" + "</div>";
    NoStartInConcat("before", "<div>", "</div>");
    NoStartInConcat("before" + "<div>", "<div>Hello hi ", "</div>");
    NoStartInConcat("before" + "<div>" + "<div>Hello hi ", "<div>Hello hi  ", "</div>");
    assert "before" + "<div>" + "<div>Hello hi " + "<div>Hello hi  " + "</div>" + " " + "</div>" + "</div>"
           == before + ("</div>" + rest);
    AtStart("</div>", rest);
    SkipPrefix(before, "</div>" + rest, "</div>");
  }

  /** The second round of `SameTagNestedExample`: no opening marker is left. */
  lemma BeforeClosingExample()
    ensures StripHtmlBlock("before" + " " + "</div>" + "</div>", "div") == "before" + " " + "</div>" + "</div>"
  {
    Markers();
    NoStartInConcat("before", " ", "<div");
    NoStartInConcat("before" + " ", "</div>", "<div");
    NoStartInConcat("before" + " " + "</div>", "</div>", "<div");
    Absent("before" + " " + "</div>" + "</div>", "<div");
    StripWithoutMarker("before" + " " + "</div>" + "</div>", "div");
  }

  lemma SameTagNestedSplice()
    ensures SpliceBlock("before" + "<div>" + "<div>Hello hi " + "<div>Hello hi  " + "</div>" + " " + "</div>" + "</div>", "div", 6, 40)
            == "before" + " " + "</div>" + "</div>"
  {
  }

  /** The same tag nested:
      `strip_html_block("before<div><div>Hello hi <div>Hello hi  </div> </div></div>", "div")
      == "before </div></div>"`. The outer opening tag is spliced together with
      the innermost closing tag, and the two outer closing tags survive. */
  lemma SameTagNestedExample()
    ensures StripHtmlBlock("before" + "<div>" + "<div>Hello hi " + "<div>Hello hi  " + "</div>" + " " + "</div>" + "</div>", "div")
            == "before </div></div>"
  {
    var t := "before" + "<div>" + "<div>Hello hi " + "<div>Hello hi  " + "</div>" + " " + "</div>" + "</div>";
    SameTagNestedOpen();
    SameTagNestedClose();
    SameTagNestedSplice();
    StripStepAt(t, "div", 6, 40);
    BeforeClosingExample();
    BeforeClosingText();
  }

  lemma BeforeClosingText()
    ensures "before" + " " + "</div>" + "</div>" == "before </div></div>"
  {
  }

  lemma NestedTagsClose()
    ensures IndexOf("<div>" + "<span>" + "<strong>Hello" + "</strong>" + "</span>" + "</div>" + "good text",
                    CloseMarker("div")) == 40
  {
    Markers();
    var before := "<div>" + "<span>" + "<strong>Hello" + "</strong>" + "</span>";
    NoStartInConcat("<div>", "<span>", "</div>");
    NoStartInConcat("<div>" + "<span>", "<strong>Hello", "</div>");
    NoStartInConcat("<div>" + "<span>" + "<strong>Hello", "</strong>", "</div>");
    NoStartInConcat("<div>" + "<span>" + "<strong>Hello" + "</strong>", "</span>", "</div>");
    assert "<div>" + "<span>" + "<strong>Hello" + "</strong>" + "</span>" + "</div>" + "good text"
           == before + ("</div>" + "good text");
    AtStart("</div>", "good text");
    SkipPrefix(before, "</div>" + "good text", "</div>");
  }

  lemma NestedTagsOpen()
    ensures IndexOf("<div>" + "<span>" + "<strong>Hello" + "</strong>" + "</span>" + "</div>" + "good text",
                    OpenMarker("div")) == 0
  {
    Markers();
    var rest := ">" + "<span>" + "<strong>Hello" + "</strong>" + "</span>" + "</div>" + "good text";
    assert "<div>" + "<span>" + "<strong>Hello" + "</strong>" + "</span>" + "</div>" + "good text" == "<div" + rest;
    AtStart("<div", rest);
  }

  lemma NestedTagsGone()
    ensures MarkersGone("good text", "div")
  {
    Markers();
    Absent("good text", "<div");
    Absent("good text", "</div>");
  }

  /** `strip_html_block("<div><span><strong>Hello</strong></span></div>good text", "div") == "good text"`. */
  lemma NestedTagsExample()
    ensures StripHtmlBlock("<div>" + "<span>" + "<strong>Hello" + "</strong>" + "</span>" + "</div>" + "good text", "div")
            == "good text"
  {
    var t := "<div>" + "<span>" + "<strong>Hello" + "</strong>" + "</span>" + "</div>" + "good text";
    NestedTagsOpen();
    NestedTagsClose();
    assert SpliceBlock(t, "div", 0, 40) == "good text";
    NestedTagsGone();
    StripOnce(t, "div", 0, 40);
  }

  lemma AttributesClose()
    ensures IndexOf("<p class=\"my-class\">" + "Hello" + "</p>", CloseMarker("p")) == 25
  {
    Markers();
    NoStartInConcat("<p class=\"my-class\">", "Hello", "</p>");
    AtStart("</p>", "");
    assert "</p>" + "" == "</p>";
    SkipPrefix("<p class=\"my-class\">" + "Hello", "</p>", "</p>");
  }

  lemma AttributesOpen()
    ensures IndexOf("<p class=\"my-class\">" + "Hello" + "</p>", OpenMarker("p")) == 0
  {
    Markers();
    var rest := " class=\"my-class\">" + "Hello" + "</p>";
    assert "<p class=\"my-class\">" + "Hello" + "</p>" == "<p" + rest;
    AtStart("<p", rest);
  }

  lemma AttributesSplice()
    ensures SpliceBlock("<p class=\"my-class\">" + "Hello" + "</p>", "p", 0, 25) == ""
    ensures MarkersGone("", "p")
  {
  }

  /** Attributes on the opening tag are ignored:
      `strip_html_block("<p class=\"my-class\">Hello</p>", "p") == ""`. */
  lemma AttributesExample()
    ensures StripHtmlBlock("<p class=\"my-class\">" + "Hello" + "</p>", "p") == ""
  {
    AttributesOpen();
    AttributesClose();
    AttributesSplice();
    StripOnce("<p class=\"my-class\">" + "Hello" + "</p>", "p", 0, 25);
  }

  /** The open-after-close branch: in `"</div><div>x</div>"` the first closing
      marker comes first; the first splice gives the text back unchanged, and
      the correction removes `"</div><div"`, leaving `">x</div>"`. */
  lemma CloseBeforeOpenExample()
    ensures StripHtmlBlock("</div>" + "<div>x" + "</div>", "div") == ">x" + "</div>"
  {
    Markers();
    var t := "</div>" + "<div>x" + "</div>";
    assert t == "</div>" + ("<div>x" + "</div>");
    AtStart("</div>", "<div>x" + "</div>");
    assert t == "</div>" + ("<div" + (">x" + "</div>"));
    AtStart("<div", ">x" + "</div>");
    NoStartInConcat("</div>", "", "<div");
    assert "</div>" + "" == "</div>";
    SkipPrefix("</div>", "<div" + (">x" + "</div>"), "<div");
    assert SpliceBlock(t, "div", 6, 0) == t;
    StripBackStep(t, "div", 6, 0);
    assert t[..0] + SubstringFrom(t, 10) == ">x" + "</div>";
    NoStartInConcat(">x", "</div>", "<div");
    Absent(">x" + "</div>", "<div");
    StripWithoutMarker(">x" + "</div>", "div");
  }

  /** Removing a token that occurs once: `(a + t + b).replaceAll(t, "") == a + b`. */
  lemma RemoveOnce(s: string, a: string, t: string, b: string)
    requires |t| >= 2 && s == a + t + b && NoStartIn(a, t) && NoStartIn(b, t)
    ensures RemoveAll(s, t) == a + b
  {
    assert s == a + (t + b);
    AtStart(t, b);
    SkipPrefix(a, t + b, t);
    assert s[..|a|] == a && s[|a| + |t|..] == b;
    Absent(b, t);
  }

  /** No token can start inside a text without `'<'`. */
  lemma NoAngleStart(s: string, t: string)
    requires |t| >= 2 && t[0] == '<' && forall i :: 0 <= i < |s| ==> s[i] != '<'
    ensures NoStartIn(s, t)
  {
    forall i | 0 <= i < |s| ensures MismatchAt(s, t, i) {
      assert s[i] != '<';
    }
  }

  /** A text without `'<'` contains none of the tokens. */
  lemma NoAngle(s: string, t: string)
    requires |t| >= 2 && t[0] == '<' && forall i :: 0 <= i < |s| ==> s[i] != '<'
    ensures RemoveAll(s, t) == s
  {
    NoAngleStart(s, t);
    Absent(s, t);
  }

  /** A text without `'<'` is left alone by every token. */
  lemma PlainAfter(s: string)
    requires forall i :: 0 <= i < |s| ==> s[i] != '<'
    ensures RemoveAll(s, "<p>") == s && RemoveAll(s, "</p>") == s
    ensures RemoveAll(s, "<ol>") == s && RemoveAll(s, "</ol>") == s
    ensures RemoveAll(s, "<li>") == s && RemoveAll(s, "</li>") == s
    ensures RemoveAll(s, "<br />") == s
    ensures RemoveAll(s, "<strong>") == s && RemoveAll(s, "</strong>") == s
  {
    NoAngle(s, "<p>");
    NoAngle(s, "</p>");
    NoAngle(s, "<ol>");
    NoAngle(s, "</ol>");
    NoAngle(s, "<li>");
    NoAngle(s, "</li>");
    NoAngle(s, "<br />");
    NoAngle(s, "<strong>");
    NoAngle(s, "</strong>");
  }

  lemma HelloWorldPlain()
    ensures forall i :: 0 <= i < |"Hello, world!"| ==> "Hello, world!"[i] != '<'
  {
  }

  lemma ParagraphOpen()
    ensures RemoveAll("<p>" + "Hello, world!" + "</p>", "<p>") == "Hello, world!" + "</p>"
  {
    HelloWorldPlain();
    NoAngleStart("Hello, world!", "<p>");
    NoStartInConcat("Hello, world!", "</p>", "<p>");
    RemoveOnce("<p>" + "Hello, world!" + "</p>", "", "<p>", "Hello, world!" + "</p>");
  }

  lemma ParagraphClose()
    ensures RemoveAll("Hello, world!" + "</p>", "</p>") == "Hello, world!"
  {
    HelloWorldPlain();
    NoAngleStart("Hello, world!", "</p>");
    RemoveOnce("Hello, world!" + "</p>", "Hello, world!", "</p>", "");
    assert "Hello, world!" + "" == "Hello, world!";
  }

  /** `strip_html_tags("<p>Hello, world!</p>") == "Hello, world!"`. */
  lemma ParagraphExample()
    ensures StripHtmlTags(Some("<p>" + "Hello, world!" + "</p>")) == Some("Hello, world!")
  {
    StripHtmlTagsOrder("<p>" + "Hello, world!" + "</p>");
    ParagraphOpen();
    ParagraphClose();
    HelloWorldPlain();
    PlainAfter("Hello, world!");
  }

  /** `strip_html_tags("Hello, world!")` leaves a text without tags unchanged. */
  lemma NoTagsExample()
    ensures StripHtmlTags(Some("Hello, world!")) == Some("Hello, world!")
  {
    StripHtmlTagsOrder("Hello, world!");
    HelloWorldPlain();
    PlainAfter("Hello, world!");
  }

  /** A token whose second character is not `'b'`/`'s'` cannot start at a `"<br />"`. */
  lemma BreakMismatch(t: string)
    requires |t| >= 2 && t[0] == '<' && t[1] != 'b'
    ensures NoStartIn("<br />", t)
  {
    var s := "<br />";
    forall i | 0 <= i < |s| ensures MismatchAt(s, t, i) {
      if i == 0 { assert s[1] == 'b'; } else { assert s[i] != '<'; }
    }
  }

  lemma BreakKeeps(t: string)
    requires |t| >= 2 && t[0] == '<' && t[1] != 'b'
    ensures RemoveAll("Hello" + "<br />" + "world!", t) == "Hello" + "<br />" + "world!"
  {
    NoAngleStart("Hello", t);
    NoAngleStart("world!", t);
    BreakMismatch(t);
    NoStartInConcat("Hello", "<br />", t);
    NoStartInConcat("Hello" + "<br />", "world!", t);
    Absent("Hello" + "<br />" + "world!", t);
  }

  lemma BreakRemoved()
    ensures RemoveAll("Hello" + "<br />" + "world!", "<br />") == "Hello" + "world!"
  {
    NoAngleStart("Hello", "<br />");
    NoAngleStart("world!", "<br />");
    RemoveOnce("Hello" + "<br />" + "world!", "Hello", "<br />", "world!");
  }

  lemma HelloworldPlain()
    ensures forall i :: 0 <= i < |"Hello" + "world!"| ==> ("Hello" + "world!")[i] != '<'
  {
  }

  lemma BreakFirstSix()
    ensures RemoveAll(RemoveAll(RemoveAll(RemoveAll(RemoveAll(RemoveAll("Hello" + "<br />" + "world!",
              "<p>"), "</p>"), "<ol>"), "</ol>"), "<li>"), "</li>") == "Hello" + "<br />" + "world!"
  {
    BreakKeeps("<p>");
    BreakKeeps("</p>");
    BreakKeeps("<ol>");
    BreakKeeps("</ol>");
    BreakKeeps("<li>");
    BreakKeeps("</li>");
  }

  lemma BreakTail()
    ensures RemoveAll(RemoveAll("Hello" + "world!", "<strong>"), "</strong>") == "Helloworld!"
  {
    HelloworldPlain();
    NoAngle("Hello" + "world!", "<strong>");
    NoAngle("Hello" + "world!", "</strong>");
    assert "Hello" + "world!" == "Helloworld!";
  }

  /** `strip_html_tags("Hello<br />world!") == "Helloworld!"`. */
  lemma BreakExample()
    ensures StripHtmlTags(Some("Hello" + "<br />" + "world!")) == Some("Helloworld!")
  {
    StripHtmlTagsOrder("Hello" + "<br />" + "world!");
    BreakFirstSix();
    BreakRemoved();
    BreakTail();
  }

  /** A token that differs from `"<strong>"` and `"</strong>"` within three
      characters cannot start at either. */
  lemma StrongMismatch(t: string)
    requires |t| >= 3 && t[0] == '<' && t[1] != 's' && (t[1] == '/' ==> t[2] != 's')
    ensures NoStartIn("<strong>", t) && NoStartIn("</strong>", t)
  {
    var s := "<strong>";
    forall i | 0 <= i < |s| ensures MismatchAt(s, t, i) {
      if i == 0 { assert s[1] == 's'; } else { assert s[i] != '<'; }
    }
    var c := "</strong>";
    forall i | 0 <= i < |c| ensures MismatchAt(c, t, i) {
      if i == 0 { assert c[1] == '/' && c[2] == 's'; } else { assert c[i] != '<'; }
    }
  }

  lemma StrongKeeps(t: string)
    requires |t| >= 3 && t[0] == '<' && t[1] != 's' && (t[1] == '/' ==> t[2] != 's')
    ensures RemoveAll("<strong>" + "Hello, world!" + "</strong>", t) == "<strong>" + "Hello, world!" + "</strong>"
  {
    HelloWorldPlain();
    NoAngleStart("Hello, world!", t);
    StrongMismatch(t);
    NoStartInConcat("<strong>", "Hello, world!", t);
    NoStartInConcat("<strong>" + "Hello, world!", "</strong>", t);
    Absent("<strong>" + "Hello, world!" + "</strong>", t);
  }

  lemma StrongOpen()
    ensures RemoveAll("<strong>" + "Hello, world!" + "</strong>", "<strong>") == "Hello, world!" + "</strong>"
  {
    HelloWorldPlain();
    NoAngleStart("Hello, world!", "<strong>");
    NoStartInConcat("Hello, world!", "</strong>", "<strong>");
    RemoveOnce("<strong>" + "Hello, world!" + "</strong>", "", "<strong>", "Hello, world!" + "</strong>");
    assert "" + ("Hello, world!" + "</strong>") == "Hello, world!" + "</strong>";
  }

  lemma StrongClose()
    ensures RemoveAll("Hello, world!" + "</strong>", "</strong>") == "Hello, world!"
  {
    HelloWorldPlain();
    NoAngleStart("Hello, world!", "</strong>");
    RemoveOnce("Hello, world!" + "</strong>", "Hello, world!", "</strong>", "");
    assert "Hello, world!" + "" == "Hello, world!";
  }

  lemma StrongFirstSeven()
    ensures RemoveAll(RemoveAll(RemoveAll(RemoveAll(RemoveAll(RemoveAll(RemoveAll(
              "<strong>" + "Hello, world!" + "</strong>", "<p>"), "</p>"), "<ol>"), "</ol>"), "<li>"), "</li>"), "<br />")
            == "<strong>" + "Hello, world!" + "</strong>"
  {
    StrongKeeps("<p>");
    StrongKeeps("</p>");
    StrongKeeps("<ol>");
    StrongKeeps("</ol>");
    StrongKeeps("<li>");
    StrongKeeps("</li>");
    StrongKeeps("<br />");
  }

  /** `strip_html_tags("<strong>Hello, world!</strong>") == "Hello, world!"`. */
  lemma StrongExample()
    ensures StripHtmlTags(Some("<strong>" + "Hello, world!" + "</strong>")) == Some("Hello, world!")
  {
    StripHtmlTagsOrder("<strong>" + "Hello, world!" + "</strong>");
    StrongFirstSeven();
    StrongOpen();
    StrongClose();
  }

  lemma MixedOpen()
    ensures RemoveAll("<p>" + "<strong>Hello" + "</strong>" + ", " + "<br />" + "world!" + "</p>", "<p>")
            == "<strong>Hello" + "</strong>" + ", " + "<br />" + "world!" + "</p>"
  {
    var s1 := "<strong>Hello" + "</strong>" + ", " + "<br />" + "world!" + "</p>";
    NoStartInConcat("<strong>Hello", "</strong>", "<p>");
    NoStartInConcat("<strong>Hello" + "</strong>", ", ", "<p>");
    NoStartInConcat("<strong>Hello" + "</strong>" + ", ", "<br />", "<p>");
    NoStartInConcat("<strong>Hello" + "</strong>" + ", " + "<br />", "world!", "<p>");
    NoStartInConcat("<strong>Hello" + "</strong>" + ", " + "<br />" + "world!", "</p>", "<p>");
    assert "<p>" + "<strong>Hello" + "</strong>" + ", " + "<br />" + "world!" + "</p>" == "" + "<p>" + s1;
    RemoveOnce("<p>" + "<strong>Hello" + "</strong>" + ", " + "<br />" + "world!" + "</p>", "", "<p>", s1);
    assert "" + s1 == s1;
  }

  lemma MixedClose()
    ensures RemoveAll("<strong>Hello" + "</strong>" + ", " + "<br />" + "world!" + "</p>", "</p>")
            == "<strong>Hello" + "</strong>" + ", " + "<br />" + "world!"
  {
    var s2 := "<strong>Hello" + "</strong>" + ", " + "<br />" + "world!";
    NoStartInConcat("<strong>Hello", "</strong>", "</p>");
    NoStartInConcat("<strong>Hello" + "</strong>", ", ", "</p>");
    NoStartInConcat("<strong>Hello" + "</strong>" + ", ", "<br />", "</p>");
    NoStartInConcat("<strong>Hello" + "</strong>" + ", " + "<br />", "world!", "</p>");
    assert s2 + "</p>" == s2 + "</p>" + "";
    RemoveOnce(s2 + "</p>", s2, "</p>", "");
    assert s2 + "" == s2;
  }

  lemma MixedKeeps(t: string)
    requires |t| >= 3 && t[0] == '<' && t[1] != 's' && t[1] != 'b' && (t[1] == '/' ==> t[2] != 's')
    ensures RemoveAll("<strong>Hello" + "</strong>" + ", " + "<br />" + "world!", t)
            == "<strong>Hello" + "</strong>" + ", " + "<br />" + "world!"
  {
    var b := "<strong>Hello";
    forall i | 0 <= i < |b| ensures MismatchAt(b, t, i) {
      if i == 0 { assert b[1] == 's'; } else { assert b[i] != '<'; }
    }
    StrongMismatch(t);
    BreakMismatch(t);
    NoAngleStart(", ", t);
    NoAngleStart("world!", t);
    NoStartInConcat("<strong>Hello", "</strong>", t);
    NoStartInConcat("<strong>Hello" + "</strong>", ", ", t);
    NoStartInConcat("<strong>Hello" + "</strong>" + ", ", "<br />", t);
    NoStartInConcat("<strong>Hello" + "</strong>" + ", " + "<br />", "world!", t);
    Absent("<strong>Hello" + "</strong>" + ", " + "<br />" + "world!", t);
  }

  lemma MixedLists()
    ensures RemoveAll(RemoveAll(RemoveAll(RemoveAll("<strong>Hello" + "</strong>" + ", " + "<br />" + "world!",
              "<ol>"), "</ol>"), "<li>"), "</li>")
            == "<strong>Hello" + "</strong>" + ", " + "<br />" + "world!"
  {
    MixedKeeps("<ol>");
    MixedKeeps("</ol>");
    MixedKeeps("<li>");
    MixedKeeps("</li>");
  }

  lemma MixedBreak()
    ensures RemoveAll("<strong>Hello" + "</strong>" + ", " + "<br />" + "world!", "<br />")
            == "<strong>Hello" + "</strong>" + ", " + "world!"
  {
    var a := "<strong>Hello" + "</strong>" + ", ";
    NoStartInConcat("<strong>Hello", "</strong>", "<br />");
    NoStartInConcat("<strong>Hello" + "</strong>", ", ", "<br />");
    NoAngleStart("world!", "<br />");
    RemoveOnce(a + "<br />" + "world!", a, "<br />", "world!");
  }

  lemma MixedStrongOpen()
    ensures RemoveAll("<strong>Hello" + "</strong>" + ", " + "world!", "<strong>")
            == "Hello" + "</strong>" + ", " + "world!"
  {
    var b := "Hello" + "</strong>" + ", " + "world!";
    NoAngleStart("Hello", "<strong>");
    NoStartInConcat("Hello", "</strong>", "<strong>");
    NoAngleStart(", ", "<strong>");
    NoAngleStart("world!", "<strong>");
    NoStartInConcat("Hello" + "</strong>", ", ", "<strong>");
    NoStartInConcat("Hello" + "</strong>" + ", ", "world!", "<strong>");
    assert "<strong>Hello" + "</strong>" + ", " + "world!" == "" + "<strong>" + b;
    RemoveOnce("" + "<strong>" + b, "", "<strong>", b);
    assert "" + b == b;
  }

  lemma MixedStrongClose()
    ensures RemoveAll("Hello" + "</strong>" + ", " + "world!", "</strong>") == "Hello, world!"
  {
    NoAngleStart("Hello", "</strong>");
    NoAngleStart(", ", "</strong>");
    NoAngleStart("world!", "</strong>");
    NoStartInConcat(", ", "world!", "</strong>");
    assert "Hello" + "</strong>" + ", " + "world!" == "Hello" + "</strong>" + (", " + "world!");
    RemoveOnce("Hello" + "</strong>" + (", " + "world!"), "Hello", "</strong>", ", " + "world!");
    HelloWorldText();
  }

  lemma HelloWorldText()
    ensures "Hello" + (", " + "world!") == "Hello, world!"
  {
  }

  /** `strip_html_tags("<p><strong>Hello</strong>, <br />world!</p>") == "Hello, world!"`:
      every kind of token in one text. */
  lemma MixedExample()
    ensures StripHtmlTags(Some("<p>" + "<strong>Hello" + "</strong>" + ", " + "<br />" + "world!" + "</p>"))
            == Some("Hello, world!")
  {
    StripHtmlTagsOrder("<p>" + "<strong>Hello" + "</strong>" + ", " + "<br />" + "world!" + "</p>");
    MixedOpen();
    MixedClose();
    MixedLists();
    MixedBreak();
    MixedStrongOpen();
    MixedStrongClose();
  }
}
