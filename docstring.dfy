/** The behaviour the docstring of `iter_chunks` lists (lines 73-78), proved
    for any href `h` that is already stripped and any text around it, under
    the condition that the first character of `h` does not occur earlier, so
    that `find` lands on the intended occurrence. */
module DocstringCases {
  import opened PyStr
  import opened Chunker
  import opened ChunkLaws
  import opened Replacement

  /** An href as a document yields it: non-empty and already stripped. */
  predicate Url(h: string) {
    h != [] && Strip(h) == h
  }

  /** A text node for `s`, or nothing when `s` is empty. */
  function TextIf(s: string): seq<Token> {
    if s != [] then [Text(s)] else []
  }

  /** The plain span the scan ends with once the hrefs are used up
      (lines 156-157). */
  function Leftover(rest: string, healthy: bool): seq<Triple> {
    if rest != [] then [Triple(rest, None, healthy)] else []
  }

  // ---- one href ----

  /** With a single href, the output is that href's step followed by what is
      left of the cursor. */
  lemma OneHref(s: string, href: string)
    requires !Blank(s)
    ensures var st := StepOn(s, true, href);
            Chunks(s, [href]) == st.out + Leftover(st.rest, st.healthy)
  {
    var st := StepOn(s, true, href);
    ChunkFromUnfold(s, true, [href], st);
    assert [href][1..] == [];
  }

  /** A template holding `h` is not blank, and `find` lands right after
      `pre` when the first character of `h` is not in `pre`. */
  lemma UrlFound(pre: string, h: string, post: string)
    requires Url(h) && h[0] !in pre
    ensures !Blank(pre + h + post)
    ensures StepOn(pre + h + post, true, h) == OnMatch(pre + h + post, h, |pre|, true)
  {
    var s := pre + h + post;
    assert s[|pre|] == h[0];
    FindAfter(pre, h, post);
  }

  lemma Parts<T>(pre: seq<T>, mid: seq<T>, post: seq<T>)
    ensures var s := pre + mid + post;
            s[..|pre|] == pre && s[|pre|..|pre| + |mid|] == mid && s[|pre| + |mid|..] == post
  {
  }

  lemma TokensThenLeftover(xs: seq<Triple>, tail: string, healthy: bool)
    ensures ToTokens(xs + Leftover(tail, healthy)) == ToTokens(xs) + TextIf(tail)
  {
    ToTokensAppend(xs, Leftover(tail, healthy));
    if tail != [] {
      assert [Triple(tail, None, healthy)][1..] == [];
    }
  }

  /** The nodes of a run of triples that ends with a plain leftover. */
  lemma TokensVia(ch: seq<Triple>, xs: seq<Triple>, tail: string, healthy: bool, head: seq<Token>)
    requires ch == xs + Leftover(tail, healthy) && ToTokens(xs) == head
    ensures ToTokens(ch) == head + TextIf(tail)
  {
    TokensThenLeftover(xs, tail, healthy);
  }

  lemma TokensOfOne(x: Triple)
    ensures ToTokens([x]) == TokenOf(x)
  {
    assert [x][1..] == [];
  }

  lemma TokensOfTwo(x: Triple, y: Triple)
    ensures ToTokens([x, y]) == TokenOf(x) + TokenOf(y)
  {
    assert [x, y][1..] == [y];
    TokensOfOne(y);
  }

  lemma TokensOfThree(x: Triple, y: Triple, z: Triple)
    ensures ToTokens([x, y, z]) == TokenOf(x) + TokenOf(y) + TokenOf(z)
  {
    assert [x, y, z][1..] == [y, z];
    TokensOfTwo(y, z);
    AppendAssoc(TokenOf(x), TokenOf(y), TokenOf(z));
  }

  // ---- a bare href ----

  /** An href at the start of the cursor becomes a link to itself, and the
      cursor moves past it. */
  lemma BareMatch(h: string, post: string)
    requires h != []
    ensures OccursAt(h + post, h, 0)
    ensures OnMatch(h + post, h, 0, true) == Step([Triple(h, Some(h), true)], post, true)
  {
    assert (h + post)[..|h|] == h && (h + post)[|h|..] == post;
  }

  /** The triples of `h tail` for the single href `h`. */
  lemma BareChunks(s: string, h: string, tail: string)
    requires Url(h) && s == h + tail
    ensures Chunks(s, [h]) == [Triple(h, Some(h), true)] + Leftover(tail, true)
  {
    assert [] + h + tail == s;
    UrlFound([], h, tail);
    BareMatch(h, tail);
    OneHref(s, h);
  }

  /** `h tail` gives a reference showing `h` itself, then the rest as text. */
  lemma BareUrl(s: string, h: string, tail: string)
    requires Url(h) && s == h + tail
    ensures ToTokens(Chunks(s, [h])) == [Reference(h, h)] + TextIf(tail)
  {
    BareChunks(s, h, tail);
    var x := Triple(h, Some(h), true);
    TokensOfOne(x);
    TokensVia(Chunks(s, [h]), [x], tail, true, [Reference(h, h)]);
  }

  // ---- an href in angle brackets ----

  /** An href between `<` and `>` keeps the text up to `<`, the href and the
      `>` as three triples, and the cursor moves past the `>`. */
  lemma AngledMatch(pre: string, h: string, post: string)
    requires h != [] && pre != [] && pre[|pre| - 1] == '<' && post != [] && post[0] == '>'
    ensures var s := pre + h + post;
            OccursAt(s, h, |pre|) &&
            OnMatch(s, h, |pre|, true)
            == Step([Triple(pre, None, true), Triple(h, Some(h), true), Triple(">", None, true)],
                    post[1..], true)
  {
    var s := pre + h + post;
    Parts(pre, h, post);
    var p := |pre|;
    var q := p + |h|;
    assert s[p - 1] == '<' && s[q] == '>';
    assert s[q..q + 1] == post[..1] == ">";
    assert s[q + 1..] == post[1..];
  }

  /** The triples of `lead<h>tail` for the single href `h`. */
  lemma AngledChunks(s: string, lead: string, h: string, tail: string)
    requires Url(h) && h[0] !in lead && h[0] != '<' && s == lead + "<" + h + ">" + tail
    ensures Chunks(s, [h])
            == [Triple(lead + "<", None, true), Triple(h, Some(h), true), Triple(">", None, true)]
               + Leftover(tail, true)
  {
    var pre := lead + "<";
    var post := ">" + tail;
    assert s == pre + h + post;
    assert post[1..] == tail;
    UrlFound(pre, h, post);
    AngledMatch(pre, h, post);
    OneHref(s, h);
  }

  /** `lead<h>tail` gives the text up to and including `<`, a reference
      showing `h`, the text `>`, then the rest as text. */
  lemma AngledUrl(s: string, lead: string, h: string, tail: string)
    requires Url(h) && h[0] !in lead && h[0] != '<' && s == lead + "<" + h + ">" + tail
    ensures ToTokens(Chunks(s, [h]))
            == [Text(lead + "<"), Reference(h, h), Text(">")] + TextIf(tail)
  {
    AngledChunks(s, lead, h, tail);
    var x := Triple(lead + "<", None, true);
    var y := Triple(h, Some(h), true);
    var z := Triple(">", None, true);
    TokensOfThree(x, y, z);
    TokensVia(Chunks(s, [h]), [x, y, z], tail, true,
              [Text(lead + "<"), Reference(h, h), Text(">")]);
  }

  // ---- an href as the target of `[text](href)` ----

  /** The display text of `[d](h)`: `d`, or `h` when `d` is blank. */
  function Display(d: string, h: string): string {
    if Blank(d) then h else d
  }

  /** Where the pieces of `lead[d](h)post` sit. */
  lemma BracketLayout(lead: string, d: string, h: string, post: string)
    requires '[' !in d && post != [] && post[0] == ')'
    ensures var pre := lead + "[" + d + "](";
            var s := pre + h + post;
            var i := |lead|;
            var p := |pre|;
            i < p - 2 && p + |h| < |s| && OccursAt(s, h, p) &&
            s[..i] == lead && s[i + 1..p - 2] == d && s[p + |h| + 1..] == post[1..] &&
            s[i] == '[' && s[p - 2] == ']' && s[p - 1] == '(' && s[p + |h|] == ')' &&
            forall j :: i < j < p - 2 ==> s[j] != '['
  {
    var pre := lead + "[" + d + "](";
    var s := pre + h + post;
    Parts(pre, h, post);
    var i := |lead|;
    var p := |pre|;
    assert pre[..i] == lead && pre[i] == '[' && pre[i + 1..p - 2] == d;
    assert pre[p - 2] == ']' && pre[p - 1] == '(';
    assert s[..i] == pre[..i] && s[i + 1..p - 2] == pre[i + 1..p - 2];
    forall j | i < j < p - 2
      ensures s[j] != '['
    {
      assert s[j] == d[j - i - 1];
    }
    assert s[p + |h| + 1..] == post[1..];
  }

  /** `[d](h)` found with its `[` at `i`, the href at `p` and `tail` after
      the `)`: the text before `[` when there is any, then `d` (or `h`)
      linking to `h`; `[`, `](` and `)` are dropped. */
  lemma BracketMatch(c: string, h: string, i: nat, p: nat, tail: string)
    requires h != [] && i < p - 2 && p + |h| < |c| && OccursAt(c, h, p)
    requires c[i] == '[' && c[p - 2] == ']' && c[p - 1] == '(' && c[p + |h|] == ')'
    requires forall j :: i < j < p - 2 ==> c[j] != '['
    requires c[p + |h| + 1..] == tail
    ensures var link := Triple(Display(c[i + 1..p - 2], h), Some(h), true);
            OnMatch(c, h, p, true)
            == Step(if i > 0 then [Triple(c[..i], None, true), link] else [link], tail, true)
  {
    LeftBracketUnique(c, p, Some(i));
  }

  /** The triples of `lead[d](h)tail` for the single href `h`. */
  lemma BracketChunks(lead: string, d: string, h: string, tail: string)
    requires Url(h) && '[' !in d && h[0] !in lead + "[" + d + "]("
    ensures var link := Triple(Display(d, h), Some(h), true);
            Chunks(lead + "[" + d + "](" + h + ")" + tail, [h])
            == (if lead != [] then [Triple(lead, None, true), link] else [link]) + Leftover(tail, true)
  {
    var pre := lead + "[" + d + "](";
    var post := ")" + tail;
    assert lead + "[" + d + "](" + h + ")" + tail == pre + h + post;
    assert post[1..] == tail;
    UrlFound(pre, h, post);
    BracketLayout(lead, d, h, post);
    BracketMatch(pre + h + post, h, |lead|, |pre|, tail);
    OneHref(pre + h + post, h);
  }

  /** `lead[d](h)tail` gives the text before `[` (if any), a reference
      showing `d` (or `h` when `d` is blank) and pointing at `h`, then the rest
      as text. */
  lemma BracketUrl(s: string, lead: string, d: string, h: string, tail: string)
    requires Url(h) && '[' !in d && h[0] !in lead + "[" + d + "]("
    requires s == lead + "[" + d + "](" + h + ")" + tail
    ensures ToTokens(Chunks(s, [h]))
            == TextIf(lead) + [Reference(Display(d, h), h)] + TextIf(tail)
  {
    BracketChunks(lead, d, h, tail);
    var x := Triple(lead, None, true);
    var link := Triple(Display(d, h), Some(h), true);
    var xs := if lead != [] then [x, link] else [link];
    assert Display(d, h) != [];
    if lead != [] {
      TokensOfTwo(x, link);
    } else {
      TokensOfOne(link);
    }
    TokensVia(Chunks(s, [h]), xs, tail, true,
              TextIf(lead) + [Reference(Display(d, h), h)]);
  }

  // ---- an href in parentheses with no `[...]` before it ----

  /** Where the pieces of `pre(h)post` sit, and why no `[...]` is seen
      before the `(`. */
  lemma ParenLayout(pre: string, h: string, post: string)
    requires post != [] && post[0] == ')'
    requires '[' !in pre || pre[|pre| - 1] != ']'
    ensures var s := pre + "(" + h + post;
            var p := |pre| + 1;
            p + |h| < |s| && OccursAt(s, h, p) &&
            s[..p - 1] == pre && s[p + |h| + 1..] == post[1..] &&
            s[p - 1] == '(' && s[p + |h|] == ')' &&
            (CharAt(s, p - 2) != Some(']') || forall j :: 0 <= j < p - 2 ==> s[j] != '[')
  {
    var pp := pre + "(";
    var s := pp + h + post;
    Parts(pp, h, post);
    var p := |pp|;
    assert pp[..p - 1] == pre;
    assert s[..p - 1] == pre by {
      assert s[..p - 1] == s[..p][..p - 1];
    }
    if '[' in pre {
      assert s[p - 2] == pre[|pre| - 1];
    } else {
      forall j | 0 <= j < p - 2
        ensures s[j] != '['
      {
        assert s[j] == pre[j];
      }
    }
    assert s[p + |h| + 1..] == post[1..];
  }

  /** `(h)` found at `p` with no `[...]` before the `(` and `tail` after the
      `)`: the text before `(` without its trailing whitespace shows the
      link; when that is empty, the whitespace (if any) is kept as text and
      the link shows `h`. */
  lemma ParenMatch(c: string, h: string, p: nat, tail: string)
    requires h != [] && 0 < p && p + |h| < |c| && OccursAt(c, h, p)
    requires c[p - 1] == '(' && c[p + |h|] == ')'
    requires CharAt(c, p - 2) != Some(']') || forall j :: 0 <= j < p - 2 ==> c[j] != '['
    requires c[p + |h| + 1..] == tail
    ensures var pre := c[..p - 1];
            var link := Triple(h, Some(h), true);
            OnMatch(c, h, p, true)
            == Step(if !Blank(pre) then [Triple(RStrip(pre), Some(h), true)]
                    else if pre != [] then [Triple(pre, None, true), link]
                    else [link],
                    tail, true)
  {
    LeftBracketUnique(c, p, None);
    var pre := c[..p - 1];
    RStripBlank(pre);
    assert RStrip(pre) == [] ==> pre[|RStrip(pre)|..] == pre;
  }

  /** The triples of `pre(h)tail` for the single href `h`. */
  lemma ParenChunks(s: string, pre: string, h: string, tail: string)
    requires Url(h) && h[0] !in pre + "("
    requires '[' !in pre || pre[|pre| - 1] != ']'
    requires s == pre + "(" + h + ")" + tail
    ensures var link := Triple(h, Some(h), true);
            Chunks(s, [h])
            == (if !Blank(pre) then [Triple(RStrip(pre), Some(h), true)]
                else if pre != [] then [Triple(pre, None, true), link]
                else [link]) + Leftover(tail, true)
  {
    var post := ")" + tail;
    assert s == pre + "(" + h + post;
    assert post[1..] == tail;
    UrlFound(pre + "(", h, post);
    ParenLayout(pre, h, post);
    ParenMatch(s, h, |pre| + 1, tail);
    OneHref(s, h);
  }

  /** `pre(h)tail`, with no `[...]` right before the `(`: a reference showing
      `pre` without its trailing whitespace; when `pre` is blank, `pre` as
      text (if non-empty) and a reference showing `h`; then the rest as text. */
  lemma ParenUrl(s: string, pre: string, h: string, tail: string)
    requires Url(h) && h[0] !in pre + "("
    requires '[' !in pre || pre[|pre| - 1] != ']'
    requires s == pre + "(" + h + ")" + tail
    ensures ToTokens(Chunks(s, [h]))
            == (if !Blank(pre) then [Reference(RStrip(pre), h)]
                else TextIf(pre) + [Reference(h, h)]) + TextIf(tail)
  {
    ParenChunks(s, pre, h, tail);
    var link := Triple(h, Some(h), true);
    var xs, head;
    if !Blank(pre) {
      RStripBlank(pre);
      xs, head := [Triple(RStrip(pre), Some(h), true)], [Reference(RStrip(pre), h)];
      TokensOfOne(xs[0]);
    } else if pre != [] {
      xs, head := [Triple(pre, None, true), link], [Text(pre), Reference(h, h)];
      TokensOfTwo(xs[0], link);
    } else {
      xs, head := [link], [Reference(h, h)];
      TokensOfOne(link);
    }
    TokensVia(Chunks(s, [h]), xs, tail, true, head);
  }

  // ---- the six lines of the docstring ----
  // Each is stated for any href `h` whose first character does not occur
  // earlier in the line; `ExampleFits` shows that the docstring's own
  // `https://example.org` is such an href for every line.

  /** The href the docstring's examples use. */
  const Example: string := "https://example.org"

  lemma ExampleFits()
    ensures Url(Example)
    ensures Example[0] !in "(" && Example[0] !in "[  ](" && Example[0] !in "<"
    ensures Example[0] !in "Home (" && Example[0] !in "Text [linktext]("
  {
    assert Example[0] == 'h';
    assert !IsSpace(Example[0]) && !IsSpace(Example[|Example| - 1]);
  }

  /** Line 73: a bare href links to itself. */
  lemma DocBare(h: string)
    requires Url(h)
    ensures ToTokens(Chunks(h, [h])) == [Reference(h, h)]
  {
    assert h == h + [];
    BareUrl(h, h, []);
  }

  /** Line 74: the parentheses around an href are dropped. */
  lemma DocParens(h: string)
    requires Url(h) && h[0] !in "("
    ensures ToTokens(Chunks("(" + h + ")", [h])) == [Reference(h, h)]
  {
    assert "(" + h + ")" == [] + "(" + h + ")" + [];
    ParenUrl("(" + h + ")", [], h, []);
  }

  /** Line 75: blank link text shows the href. */
  lemma DocBlankBrackets(h: string)
    requires Url(h) && h[0] !in "[  ]("
    ensures ToTokens(Chunks("[  ](" + h + ")", [h])) == [Reference(h, h)]
  {
    assert Blank("  ");
    assert "[  ](" + h + ")" == [] + "[" + "  " + "](" + h + ")" + [];
    BracketUrl("[  ](" + h + ")", [], "  ", h, []);
  }

  /** Line 76: the angle brackets are kept as text around the link. */
  lemma DocAngled(h: string)
    requires Url(h) && h[0] !in "<"
    ensures ToTokens(Chunks("<" + h + ">", [h])) == [Text("<"), Reference(h, h), Text(">")]
  {
    assert "<" + h + ">" == [] + "<" + h + ">" + [];
    assert [] + "<" == "<";
    AngledUrl("<" + h + ">", [], h, []);
  }

  lemma HomeFacts()
    ensures !Blank("Home ") && RStrip("Home ") == "Home"
    ensures '[' !in "Home "
  {
    assert !IsSpace("Home "[0]);
    assert IsSpace("Home "[4]) && !IsSpace("Home "[3]);
  }

  /** Line 77: the text before `(`, without its trailing space, shows the link. */
  lemma DocCaption(h: string)
    requires Url(h) && h[0] !in "Home ("
    ensures ToTokens(Chunks("Home (" + h + ")", [h])) == [Reference("Home", h)]
  {
    HomeFacts();
    assert h[0] !in "Home " + "(";
    assert "Home (" + h + ")" == "Home " + "(" + h + ")" + [];
    ParenUrl("Home (" + h + ")", "Home ", h, []);
  }

  lemma LinkTextFacts()
    ensures !Blank("linktext") && '[' !in "linktext"
  {
    assert !IsSpace("linktext"[0]);
  }

  /** Line 78: the text before `[` stays text; the bracket contents show
      the link. */
  lemma DocLinkText(h: string)
    requires Url(h) && h[0] !in "Text [linktext]("
    ensures ToTokens(Chunks("Text [linktext](" + h + ")", [h]))
            == [Text("Text "), Reference("linktext", h)]
  {
    LinkTextFacts();
    assert h[0] !in "Text " + "[" + "linktext" + "](";
    assert "Text [linktext](" + h + ")" == "Text " + "[" + "linktext" + "](" + h + ")" + [];
    BracketUrl("Text [linktext](" + h + ")", "Text ", "linktext", h, []);
  }

  /** Lines 73-78 for the docstring's own href, `https://example.org`. */
  lemma DocExamples()
    ensures ToTokens(Chunks(Example, [Example])) == [Reference(Example, Example)]
    ensures ToTokens(Chunks("(" + Example + ")", [Example])) == [Reference(Example, Example)]
    ensures ToTokens(Chunks("[  ](" + Example + ")", [Example])) == [Reference(Example, Example)]
    ensures ToTokens(Chunks("<" + Example + ">", [Example]))
            == [Text("<"), Reference(Example, Example), Text(">")]
    ensures ToTokens(Chunks("Home (" + Example + ")", [Example])) == [Reference("Home", Example)]
    ensures ToTokens(Chunks("Text [linktext](" + Example + ")", [Example]))
            == [Text("Text "), Reference("linktext", Example)]
  {
    ExampleFits();
    DocBare(Example);
    DocParens(Example);
    DocBlankBrackets(Example);
    DocAngled(Example);
    DocCaption(Example);
    DocLinkText(Example);
  }
}
