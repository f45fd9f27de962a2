/** The link chunker: `char_at` and `iter_chunks`. A template string is
    cut, href by href, into plain-text spans and link spans; each yielded
    triple also carries a health flag that turns false once an href is blank,
    cannot be found, or finds no text left to attach to. */
module Chunker {
  import opened PyStr

  datatype Option<T> = None | Some(value: T)

  /** One yielded chunk: display text, link target (None for plain text) and
      the health flag at the moment it was yielded. */
  datatype Triple = Triple(text: string, link: Option<string>, healthy: bool)

  /** What one href does to the scan: the triples it yields, the cursor it
      leaves and the health flag afterwards. */
  datatype Step = Step(out: seq<Triple>, rest: string, healthy: bool)

  /** Bounds-checked lookup; unlike Python indexing, a negative index is
      outside the string. */
  function CharAt(s: string, p: int): (r: Option<char>)
    ensures r.None? <==> (p < 0 || p >= |s|)
    ensures r.Some? ==> r.value == s[p]
  {
    if p < 0 || p >= |s| then None else Some(s[p])
  }

  /** `not s.strip()`: by the contract of `Strip`, stripping leaves nothing
      exactly when every character is whitespace. */
  predicate Blank(s: string) {
    AllSpace(s)
  }

  /** `Blank` is the source's `not s.strip()`, and a blank string holds only
      whitespace. */
  lemma BlankIsEmptyStrip(s: string)
    ensures Blank(s) <==> Strip(s) == []
    ensures Blank(s) ==> forall i :: 0 <= i < |s| ==> IsSpace(s[i])
  {
  }

  lemma SuffixTrans(a: string, b: string, c: string)
    requires IsSuffix(a, b) && IsSuffix(b, c)
    ensures IsSuffix(a, c)
  {
    assert c[|c| - |a|..] == c[|c| - |b|..][|b| - |a|..];
  }

  /** The cursor after a cut at `q` is a suffix of the old one. */
  lemma SuffixAfter(c: string, q: int)
    requires 0 <= q <= |c|
    ensures IsSuffix(c[q..], c) && |c[q..]| == |c| - q
  {
  }

  ghost predicate IsSuffix(t: string, c: string) {
    |t| <= |c| && t == c[|c| - |t|..]
  }

  /** The yielded texts, concatenated. */
  function Spans(ts: seq<Triple>): string {
    if ts == [] then [] else ts[0].text + Spans(ts[1..])
  }

  /** A step that consumed a match of the href `h`: it yields at least one
      triple, every one of them non-empty and carrying the health flag
      unchanged, links only to `h`, and the cursor shrinks to a suffix. */
  ghost predicate Advances(st: Step, c: string, h: string, healthy: bool) {
    st.out != [] && IsSuffix(st.rest, c) && |st.rest| < |c| && st.healthy == healthy
    && forall k :: 0 <= k < |st.out| ==> Emitted(st.out[k], h, healthy)
  }

  /** A triple yielded for a match of `h`: non-empty, carrying the current
      health flag, and a link only to `h`. */
  predicate Emitted(t: Triple, h: string, healthy: bool) {
    t.healthy == healthy && t.text != [] && (t.link.Some? ==> t.link == Some(h))
  }

  lemma AppendAssoc<T>(a: seq<T>, b: seq<T>, c: seq<T>)
    ensures a + (b + c) == (a + b) + c
  {
  }

  /** The nearest `ch` strictly before index `k`, found by scanning backwards. */
  function LastIndexBefore(c: string, ch: char, k: int): (r: Option<nat>)
    requires k <= |c|
    ensures r.Some? ==> r.value < k && c[r.value] == ch
    ensures r.Some? ==> forall j :: r.value < j < k ==> c[j] != ch
    ensures r.None? ==> forall j :: 0 <= j < k ==> c[j] != ch
    decreases k
  {
    if k <= 0 then None
    else if c[k - 1] == ch then Some(k - 1)
    else LastIndexBefore(c, ch, k - 1)
  }

  /** The `[` that opens the link text of `[text](href)`, for an href found at
      `p`: there must be a `]` right before the `(` and a `[` before that. */
  function LeftBracket(c: string, p: int): (r: Option<nat>)
    requires 0 < p <= |c|
    ensures r.Some? ==> r.value < p - 2 && c[p - 2] == ']' && c[r.value] == '['
    ensures r.Some? ==> forall j :: r.value < j < p - 2 ==> c[j] != '['
    ensures r.None? ==> CharAt(c, p - 2) != Some(']') || forall j :: 0 <= j < p - 2 ==> c[j] != '['
  {
    if CharAt(c, p - 2) == Some(']') then LastIndexBefore(c, '[', p - 2) else None
  }

  /** The backward search for `[` (lines 115-120): from just before the `]`
      down to the start of the cursor, stopping at the first `[`. */
  method FindLeftBracket(c: string, p: int) returns (pLeftBracket: Option<nat>)
    requires 0 < p <= |c|
    ensures pLeftBracket.Some? ==> pLeftBracket.value < p - 2 && c[p - 2] == ']'
    ensures pLeftBracket.Some? ==> c[pLeftBracket.value] == '['
    ensures pLeftBracket.Some? ==> forall j :: pLeftBracket.value < j < p - 2 ==> c[j] != '['
    ensures pLeftBracket.None? ==>
              CharAt(c, p - 2) != Some(']') || forall j :: 0 <= j < p - 2 ==> c[j] != '['
  {
    var pRightBracket := p - 2;
    pLeftBracket := None;
    if CharAt(c, pRightBracket) == Some(']') {
      var i := pRightBracket - 1;
      while i >= 0
        invariant -1 <= i < pRightBracket
        invariant forall j :: i < j < pRightBracket ==> c[j] != '['
      {
        if CharAt(c, i) == Some('[') {
          pLeftBracket := Some(i);
          break;
        }
        i := i - 1;
      }
    }
  }

  /** The href starts the cursor: a link showing the href itself (lines 103-106). */
  function AtStart(c: string, h: string, healthy: bool): (st: Step)
    requires h != [] && OccursAt(c, h, 0)
    ensures Advances(st, c, h, healthy)
  {
    SuffixAfter(c, |h|);
    Step([Triple(h, Some(h), healthy)], c[|h|..], healthy)
  }

  /** `[text](href)` with the `[` at index `i` (lines 122-130, 142): the text
      before `[` is kept as plain text when non-empty, the bracket contents
      become the display text (the href when they are blank), and `[`, `](`
      and `)` are dropped. */
  function Bracketed(c: string, h: string, p: int, i: nat, healthy: bool): (st: Step)
    requires i < p - 2 && p + |h| < |c| && OccursAt(c, h, p) && h != []
    requires c[i] == '[' && c[p - 2] == ']' && c[p - 1] == '(' && c[p + |h|] == ')'
    ensures Advances(st, c, h, healthy)
  {
    var text := c[..i];
    var linktext := c[i + 1..p - 2];
    var link := Triple(if Blank(linktext) then h else linktext, Some(h), healthy);
    SuffixAfter(c, p + |h| + 1);
    Step(if |text| > 0 then [Triple(text, None, healthy), link] else [link],
         c[p + |h| + 1..], healthy)
  }

  /** `Text (href)` or `(href)` with no `[...]` before it (lines 131-142): the
      text before `(` without its trailing whitespace is the display text;
      when it holds nothing visible, its whitespace (if any) is kept as plain
      text and the link shows the href. `(` and `)` are dropped. */
  function Captioned(c: string, h: string, p: int, healthy: bool): (st: Step)
    requires 0 < p && p + |h| < |c| && OccursAt(c, h, p) && h != []
    requires c[p - 1] == '(' && c[p + |h|] == ')'
    ensures Advances(st, c, h, healthy)
  {
    var linktext := c[..p - 1];
    var body := RStrip(linktext);
    var ws := linktext[|body|..];
    SuffixAfter(c, p + |h| + 1);
    Step(if body != [] then [Triple(body, Some(h), healthy)]
         else if ws != [] then [Triple(ws, None, healthy), Triple(h, Some(h), healthy)]
         else [Triple(h, Some(h), healthy)],
         c[p + |h| + 1..], healthy)
  }

  /** `<href>` (lines 144-148): the text before the href (it ends in `<`),
      the href as a link to itself, and the literal `>`, all kept. */
  function Angled(c: string, h: string, p: int, healthy: bool): (st: Step)
    requires 0 < p && p + |h| < |c| && OccursAt(c, h, p) && h != []
    requires c[p - 1] == '<' && c[p + |h|] == '>'
    ensures Advances(st, c, h, healthy)
  {
    SuffixAfter(c, p + |h| + 1);
    Step([Triple(c[..p], None, healthy), Triple(h, Some(h), healthy),
          Triple(c[p + |h|..p + |h| + 1], None, healthy)],
         c[p + |h| + 1..], healthy)
  }

  /** An href inside the text with no recognised punctuation around it
      (lines 149-152): the text before it as plain text, then the href as a
      link to itself. */
  function Inline(c: string, h: string, p: int, healthy: bool): (st: Step)
    requires 0 < p && OccursAt(c, h, p) && h != []
    ensures Advances(st, c, h, healthy)
  {
    SuffixAfter(c, p + |h|);
    Step([Triple(c[..p], None, healthy), Triple(h, Some(h), healthy)], c[p + |h|..], healthy)
  }

  /** The href `h` found at `p` sits between `open` and `close`. */
  predicate Between(c: string, h: string, p: int, open: char, close: char): (b: bool)
    ensures b <==> 0 < p && p + |h| < |c| && c[p - 1] == open && c[p + |h|] == close
  {
    CharAt(c, p - 1) == Some(open) && CharAt(c, p + |h|) == Some(close)
  }

  /** The triples for a match of the stripped href `h` at index `p`,
      chosen by the punctuation around it (lines 103-152). */
  function OnMatch(c: string, h: string, p: int, healthy: bool): (st: Step)
    requires h != [] && OccursAt(c, h, p)
    ensures Advances(st, c, h, healthy)
  {
    if p == 0 then AtStart(c, h, healthy)
    else if Between(c, h, p, '(', ')') then
      match LeftBracket(c, p)
      case Some(i) => Bracketed(c, h, p, i, healthy)
      case None => Captioned(c, h, p, healthy)
    else if Between(c, h, p, '<', '>') then Angled(c, h, p, healthy)
    else Inline(c, h, p, healthy)
  }

  /** One iteration of the scan over the hrefs, for a cursor that is not
      blank (lines 96-155): the href is stripped and looked up in the cursor;
      a blank or missing href turns the flag false and changes nothing else. */
  function StepOn(c: string, healthy: bool, href: string): (st: Step)
    ensures !(Strip(href) != [] && Occurs(c, Strip(href))) ==> st == Step([], c, false)
    ensures Strip(href) != [] && Occurs(c, Strip(href)) ==> Advances(st, c, Strip(href), healthy)
  {
    var h := Strip(href);
    // The source strips the href a second time; that changes nothing.
    if Blank(h) then Step([], c, false)
    else
      var p := Find(c, h);
      if p == -1 then Step([], c, false) else OnMatch(c, h, p, healthy)
  }

  /** The triples yielded from cursor `c` with health flag `healthy` while the
      hrefs `hs` remain (lines 90-157): a blank cursor with hrefs left ends the
      scan unhealthy; once every href is used, a non-empty cursor is yielded
      as the last plain span. */
  function ChunkFrom(c: string, healthy: bool, hs: seq<string>): (out: seq<Triple>)
    ensures !Blank(c) ==> out != []
    ensures !healthy ==> forall t :: t in out ==> !t.healthy
    decreases |hs|
  {
    if hs == [] then (if c != [] then [Triple(c, None, healthy)] else [])
    else if Blank(c) then [Triple(c, None, false)]
    else
      var st := StepOn(c, healthy, hs[0]);
      st.out + ChunkFrom(st.rest, st.healthy, hs[1..])
  }

  /** Everything `iter_chunks(s, hrefs)` yields, in order (lines 69-157). */
  function Chunks(s: string, hrefs: seq<string>): (out: seq<Triple>)
    ensures out != []
  {
    if Blank(s) then [Triple(s, None, true)] else ChunkFrom(s, true, hrefs)
  }

  /** The branch of `iter_chunks` taken for a match of `href` at `p`
      (lines 103-152): looks at the characters around the match, searches
      back for `[` when it sits in `(...)` after a `]`, and returns the
      triples to yield and the new cursor. */
  method EmitMatch(cur: string, href: string, p: int, healthy: bool)
    returns (out: seq<Triple>, rest: string)
    requires href != [] && OccursAt(cur, href, p)
    ensures Step(out, rest, healthy) == OnMatch(cur, href, p, healthy)
  {
    var step: Step;
    if p == 0 {
      step := AtStart(cur, href, healthy);
    } else {
      var charBefore := CharAt(cur, p - 1);
      var charNext := CharAt(cur, p + |href|);
      if charBefore == Some('(') && charNext == Some(')') {
        var pLeftBracket := FindLeftBracket(cur, p);
        assert pLeftBracket == LeftBracket(cur, p) by {
          LeftBracketUnique(cur, p, pLeftBracket);
        }
        if pLeftBracket.Some? {
          step := Bracketed(cur, href, p, pLeftBracket.value, healthy);
        } else {
          step := Captioned(cur, href, p, healthy);
        }
      } else if charBefore == Some('<') && charNext == Some('>') {
        step := Angled(cur, href, p, healthy);
      } else {
        step := Inline(cur, href, p, healthy);
      }
    }
    out, rest := step.out, step.rest;
  }

  /** `LeftBracket`'s contract determines its result. */
  lemma LeftBracketUnique(c: string, p: int, r: Option<nat>)
    requires 0 < p <= |c|
    requires r.Some? ==> r.value < p - 2 && c[p - 2] == ']' && c[r.value] == '['
    requires r.Some? ==> forall j :: r.value < j < p - 2 ==> c[j] != '['
    requires r.None? ==> CharAt(c, p - 2) != Some(']') || forall j :: 0 <= j < p - 2 ==> c[j] != '['
    ensures r == LeftBracket(c, p)
  {
  }

  /** One more href processed from a cursor that is not blank: the triples
      already emitted, followed by the step's triples and the chunking of
      what is left, are still the whole output. */
  lemma ChunkFromStep(c: string, healthy: bool, hs: seq<string>, before: seq<Triple>,
                      whole: seq<Triple>, st: Step)
    requires hs != [] && !Blank(c)
    requires before + ChunkFrom(c, healthy, hs) == whole
    requires st == StepOn(c, healthy, hs[0])
    ensures (before + st.out) + ChunkFrom(st.rest, st.healthy, hs[1..]) == whole
  {
    ChunkFromUnfold(c, healthy, hs, st);
    AppendAssoc(before, st.out, ChunkFrom(st.rest, st.healthy, hs[1..]));
  }

  lemma ChunkFromUnfold(c: string, healthy: bool, hs: seq<string>, st: Step)
    requires hs != [] && !Blank(c)
    requires st == StepOn(c, healthy, hs[0])
    ensures ChunkFrom(c, healthy, hs) == st.out + ChunkFrom(st.rest, st.healthy, hs[1..])
  {
  }

  /** The body of the source's loop for one href (lines 97-152): strip it,
      look it up in the cursor and emit the triples for the form it has. */
  method ScanHref(cur: string, healthy: bool, rawHref: string)
    returns (out: seq<Triple>, rest: string, healthyAfter: bool)
    ensures Step(out, rest, healthyAfter) == StepOn(cur, healthy, rawHref)
    ensures IsSuffix(rest, cur)
  {
    var href := Strip(rawHref);
    out, rest, healthyAfter := [], cur, healthy;
    SuffixAfter(cur, 0);
    if Strip(href) != [] {
      var p := Find(cur, href);
      if p == -1 {
        // the href does not occur in the cursor
        healthyAfter := false;
      } else {
        out, rest := EmitMatch(cur, href, p, healthy);
      }
    } else {
      // the href is blank
      healthyAfter := false;
    }
  }

  /** `iter_chunks` (lines 69-157): the scan itself, with the cursor and the
      health flag as local state and the yielded triples collected in
      `chunks`. */
  method IterChunks(s: string, hrefs: seq<string>) returns (chunks: seq<Triple>)
    ensures chunks == Chunks(s, hrefs)
  {
    var healthy := true;
    if Strip(s) == [] {
      return [Triple(s, None, healthy)];
    }
    chunks := [];
    var cur := s;
    for e := 0 to |hrefs|
      invariant chunks + ChunkFrom(cur, healthy, hrefs[e..]) == Chunks(s, hrefs)
      invariant IsSuffix(cur, s)
    {
      if Strip(cur) == [] {
        // an href is left but no text to attach it to
        healthy := false;
        chunks := chunks + [Triple(cur, None, healthy)];
        return;
      }
      var out, rest, healthyAfter := ScanHref(cur, healthy, hrefs[e]);
      assert hrefs[e..][0] == hrefs[e] && hrefs[e..][1..] == hrefs[e + 1..];
      ChunkFromStep(cur, healthy, hrefs[e..], chunks, Chunks(s, hrefs), Step(out, rest, healthyAfter));
      SuffixTrans(rest, cur, s);
      chunks, cur, healthy := chunks + out, rest, healthyAfter;
    }
    if cur != [] {
      chunks := chunks + [Triple(cur, None, healthy)];
    }
  }
}
