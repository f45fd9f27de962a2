/** What `iter_chunks` promises, proved about the functions that specify it:
    which parts of the cursor each branch keeps, how the health flag moves,
    and what the yielded triples look like. */
module ChunkLaws {
  import opened PyStr
  import opened Chunker

  // ---- concatenation helpers ----

  lemma {:induction false} SpansAppend(a: seq<Triple>, b: seq<Triple>)
    ensures Spans(a + b) == Spans(a) + Spans(b)
    decreases |a|
  {
    if a == [] {
      assert a + b == b;
    } else {
      assert (a + b)[1..] == a[1..] + b;
      SpansAppend(a[1..], b);
    }
  }

  lemma SpansOfOne(x: Triple)
    ensures Spans([x]) == x.text
  {
    assert [x][1..] == [];
  }

  lemma SpansOfTwo(x: Triple, y: Triple)
    ensures Spans([x, y]) == x.text + y.text
  {
    SpansAppend([x], [y]);
    assert [x] + [y] == [x, y];
    SpansOfOne(x);
    SpansOfOne(y);
  }

  lemma SpansOfThree(x: Triple, y: Triple, z: Triple)
    ensures Spans([x, y, z]) == x.text + y.text + z.text
  {
    SpansAppend([x, y], [z]);
    assert [x, y] + [z] == [x, y, z];
    SpansOfTwo(x, y);
    SpansOfOne(z);
  }

  /** Cutting `c` at `i` and `j` and gluing the pieces back gives `c`. */
  lemma Cut3(c: string, i: int, j: int)
    requires 0 <= i <= j <= |c|
    ensures c == c[..i] + c[i..j] + c[j..]
  {
    assert c[..i] + c[i..j] == c[..j];
  }

  // ---- reconstruction, branch by branch ----

  /** Lines 103-106: the href at the start of the cursor is yielded and cut
      off; nothing is lost. */
  lemma AtStartRebuilds(c: string, h: string, healthy: bool)
    requires h != [] && OccursAt(c, h, 0)
    ensures Spans(AtStart(c, h, healthy).out) + AtStart(c, h, healthy).rest == c
  {
    var st := AtStart(c, h, healthy);
    SpansOfOne(st.out[0]);
    assert c[..|h|] + c[|h|..] == c;
  }

  /** Lines 149-152: the text before the href and the href are yielded; nothing
      is lost. */
  lemma InlineRebuilds(c: string, h: string, p: int, healthy: bool)
    requires 0 < p && OccursAt(c, h, p) && h != []
    ensures Spans(Inline(c, h, p, healthy).out) + Inline(c, h, p, healthy).rest == c
  {
    var st := Inline(c, h, p, healthy);
    SpansOfTwo(st.out[0], st.out[1]);
    Cut3(c, p, p + |h|);
  }

  /** Lines 144-148: the text up to and including `<`, the href, and `>` are
      yielded; nothing is lost. */
  lemma AngledRebuilds(c: string, h: string, p: int, healthy: bool)
    requires 0 < p && p + |h| < |c| && OccursAt(c, h, p) && h != []
    requires c[p - 1] == '<' && c[p + |h|] == '>'
    ensures Spans(Angled(c, h, p, healthy).out) + Angled(c, h, p, healthy).rest == c
    ensures var out := Angled(c, h, p, healthy).out;
            |out| == 3 && out[0].text[|out[0].text| - 1] == '<'
            && out[1] == Triple(h, Some(h), healthy) && out[2].text == ">"
  {
    var st := Angled(c, h, p, healthy);
    AngledSpans(c, h, p, st.out);
    assert c[..p][p - 1] == '<';
  }

  lemma AngledSpans(c: string, h: string, p: int, out: seq<Triple>)
    requires 0 < p && p + |h| < |c| && c[p..p + |h|] == h
    requires |out| == 3 && out[0].text == c[..p] && out[1].text == h
    requires out[2].text == c[p + |h|..p + |h| + 1]
    ensures Spans(out) + c[p + |h| + 1..] == c
  {
    assert out == [out[0], out[1], out[2]];
    SpansOfThree(out[0], out[1], out[2]);
    Cut4(c, p, p + |h|, p + |h| + 1);
  }

  /** Lines 122-130 and 142: `[raw](h)` after some leading text. The leading
      text comes out unchanged (as one span, or none when empty), the link
      shows the bracket contents, or the href when they are blank, and only
      the punctuation `[`, `](` and `)` is dropped. */
  lemma BracketedRebuilds(c: string, h: string, p: int, i: nat, healthy: bool)
    requires i < p - 2 && p + |h| < |c| && OccursAt(c, h, p) && h != []
    requires c[i] == '[' && c[p - 2] == ']' && c[p - 1] == '(' && c[p + |h|] == ')'
    ensures var st := Bracketed(c, h, p, i, healthy);
            var raw := c[i + 1..p - 2];
            c == Spans(st.out[..|st.out| - 1]) + "[" + raw + "](" + h + ")" + st.rest
            && st.out[|st.out| - 1] == Triple(if Blank(raw) then h else raw, Some(h), healthy)
  {
    var st := Bracketed(c, h, p, i, healthy);
    var raw := c[i + 1..p - 2];
    var q := p + |h|;
    var lead := st.out[..|st.out| - 1];
    assert Spans(lead) == c[..i] by {
      if i > 0 {
        SpansOfOne(lead[0]);
      }
    }
    BracketPieces(c, h, p, i);
  }

  lemma BracketPieces(c: string, h: string, p: int, i: int)
    requires 0 <= i < p - 2 && p + |h| < |c| && c[p..p + |h|] == h
    requires c[i] == '[' && c[p - 2] == ']' && c[p - 1] == '(' && c[p + |h|] == ')'
    ensures c == c[..i] + "[" + c[i + 1..p - 2] + "](" + h + ")" + c[p + |h| + 1..]
  {
    var q := p + |h|;
    Cut7(c, i, i + 1, p - 2, p, q, q + 1);
    assert c[i..i + 1] == "[" && c[p - 2..p] == "](" && c[q..q + 1] == ")";
  }

  /** Cutting `c` at six ordered points and gluing the pieces back gives `c`. */
  lemma Cut7<T>(c: seq<T>, i: int, j: int, k: int, l: int, m: int, n: int)
    requires 0 <= i <= j <= k <= l <= m <= n <= |c|
    ensures c == c[..i] + c[i..j] + c[j..k] + c[k..l] + c[l..m] + c[m..n] + c[n..]
  {
    Halves(c, i);
    DropSplit(c, i, j);
    DropSplit(c, j, k);
    DropSplit(c, k, l);
    DropSplit(c, l, m);
    DropSplit(c, m, n);
    Regroup(c[..i], c[i..j], c[j..k], c[k..l], c[l..m], c[m..n], c[n..]);
  }

  lemma Cut4<T>(c: seq<T>, i: int, j: int, k: int)
    requires 0 <= i <= j <= k <= |c|
    ensures c == c[..i] + c[i..j] + c[j..k] + c[k..]
  {
    Halves(c, i);
    DropSplit(c, i, j);
    DropSplit(c, j, k);
    AppendAssoc(c[i..j], c[j..k], c[k..]);
    AppendAssoc(c[..i], c[i..j] + c[j..k], c[k..]);
    AppendAssoc(c[..i], c[i..j], c[j..k]);
  }

  lemma Cut5<T>(c: seq<T>, i: int, j: int, k: int, l: int)
    requires 0 <= i <= j <= k <= l <= |c|
    ensures c == c[..i] + c[i..j] + c[j..k] + c[k..l] + c[l..]
  {
    Cut4(c, i, j, k);
    DropSplit(c, k, l);
    AppendAssoc(c[..i] + c[i..j] + c[j..k], c[k..l], c[l..]);
  }

  lemma Halves<T>(c: seq<T>, i: int)
    requires 0 <= i <= |c|
    ensures c == c[..i] + c[i..]
  {
  }

  lemma DropSplit<T>(c: seq<T>, i: int, j: int)
    requires 0 <= i <= j <= |c|
    ensures c[i..] == c[i..j] + c[j..]
  {
  }

  lemma Regroup<T>(a: seq<T>, b: seq<T>, c: seq<T>, d: seq<T>, e: seq<T>, f: seq<T>, g: seq<T>)
    ensures a + (b + (c + (d + (e + (f + g))))) == a + b + c + d + e + f + g
  {
    AppendAssoc(e, f, g);
    AppendAssoc(d, e + f, g);
    AppendAssoc(d, e, f);
    AppendAssoc(c, d + e + f, g);
    AppendAssoc(c, d + e, f);
    AppendAssoc(c, d, e);
    AppendAssoc(b, c + d + e + f, g);
    AppendAssoc(b, c + d + e, f);
    AppendAssoc(b, c + d, e);
    AppendAssoc(b, c, d);
    AppendAssoc(a, b + c + d + e + f, g);
    AppendAssoc(a, b + c + d + e, f);
    AppendAssoc(a, b + c + d, e);
    AppendAssoc(a, b + c, d);
    AppendAssoc(a, b, c);
  }

  /** Lines 131-142: `pre(h)` with no `[...]` before it. Only `(` and `)` are
      dropped from the cursor; the display text is `pre` without its
      trailing whitespace, and when `pre` holds nothing visible its
      whitespace is yielded as it stands, followed by the href linking to
      itself. */
  lemma CaptionedRebuilds(c: string, h: string, p: int, healthy: bool)
    requires 0 < p && p + |h| < |c| && OccursAt(c, h, p) && h != []
    requires c[p - 1] == '(' && c[p + |h|] == ')'
    ensures var st := Captioned(c, h, p, healthy);
            var pre := c[..p - 1];
            c == pre + "(" + h + ")" + st.rest
            && (!Blank(pre) ==> st.out == [Triple(RStrip(pre), Some(h), healthy)])
            && (Blank(pre) ==> Spans(st.out) == pre + h
                               && st.out[|st.out| - 1] == Triple(h, Some(h), healthy))
  {
    var st := Captioned(c, h, p, healthy);
    var pre := c[..p - 1];
    ParenPieces(c, h, p);
    RStripBlank(pre);
    if Blank(pre) {
      WhitespaceThenHref(pre, h, healthy);
    }
  }

  lemma ParenPieces(c: string, h: string, p: int)
    requires 0 < p && p + |h| < |c| && c[p..p + |h|] == h
    requires c[p - 1] == '(' && c[p + |h|] == ')'
    ensures c == c[..p - 1] + "(" + h + ")" + c[p + |h| + 1..]
  {
    var q := p + |h|;
    Cut5(c, p - 1, p, q, q + 1);
    assert c[p - 1..p] == "(" && c[q..q + 1] == ")";
  }

  /** The triples of `Captioned` when the text before `(` is all whitespace. */
  lemma WhitespaceThenHref(pre: string, h: string, healthy: bool)
    requires RStrip(pre) == []
    ensures var out := if pre != [] then [Triple(pre, None, healthy), Triple(h, Some(h), healthy)]
                       else [Triple(h, Some(h), healthy)];
            Spans(out) == pre + h
  {
    if pre != [] {
      SpansOfTwo(Triple(pre, None, healthy), Triple(h, Some(h), healthy));
    } else {
      SpansOfOne(Triple(h, Some(h), healthy));
    }
  }

  /** `rstrip` leaves nothing exactly when `strip` does. */
  lemma RStripBlank(s: string)
    ensures RStrip(s) == [] <==> Blank(s)
  {
    var r := RStrip(s);
    if r != [] {
      assert r[|r| - 1] == s[|r| - 1];
    }
  }

  /** Lines 103-106 and 144-152: outside the `(href)` form nothing is dropped;
      the yielded spans followed by the new cursor are the old cursor. */
  lemma MatchRebuilds(c: string, h: string, p: int, healthy: bool)
    requires h != [] && OccursAt(c, h, p)
    requires !Between(c, h, p, '(', ')')
    ensures Spans(OnMatch(c, h, p, healthy).out) + OnMatch(c, h, p, healthy).rest == c
  {
    if p == 0 {
      AtStartRebuilds(c, h, healthy);
    } else if Between(c, h, p, '<', '>') {
      AngledRebuilds(c, h, p, healthy);
    } else {
      InlineRebuilds(c, h, p, healthy);
    }
  }

  // ---- the health flag ----

  /** Every href, in turn, is non-blank once stripped and found in the cursor
      it meets, and the cursor is never blank while hrefs remain: none of the
      three events that clear the flag (lines 91-95, 99-102, 153-155) happens. */
  ghost predicate AllFound(c: string, healthy: bool, hs: seq<string>)
    decreases |hs|
  {
    hs == []
    || (!Blank(c) && Strip(hs[0]) != [] && Occurs(c, Strip(hs[0]))
        && AllFound(StepOn(c, healthy, hs[0]).rest, healthy, hs[1..]))
  }

  /** Every triple in `out` carries the flag `healthy`. */
  predicate AllCarry(out: seq<Triple>, healthy: bool) {
    forall k :: 0 <= k < |out| ==> out[k].healthy == healthy
  }

  /** Once a triple in `out` is unhealthy, so is every later one. */
  predicate FlagOnlyFalls(out: seq<Triple>) {
    forall i, j :: 0 <= i <= j < |out| && !out[i].healthy ==> !out[j].healthy
  }

  /** Without any of those events, every triple carries the flag as it was. */
  lemma {:induction false} AllFoundKeepsFlag(c: string, healthy: bool, hs: seq<string>)
    requires AllFound(c, healthy, hs)
    ensures AllCarry(ChunkFrom(c, healthy, hs), healthy)
    decreases |hs|
  {
    if hs != [] {
      var st := StepOn(c, healthy, hs[0]);
      ChunkFromUnfold(c, healthy, hs, st);
      AllFoundKeepsFlag(st.rest, healthy, hs[1..]);
      var tail := ChunkFrom(st.rest, st.healthy, hs[1..]);
      StepOnShape(c, healthy, hs[0]);
      CarryAppend(st.out, tail, healthy);
    }
  }

  lemma CarryAppend(a: seq<Triple>, b: seq<Triple>, healthy: bool)
    requires AllCarry(a, healthy) && AllCarry(b, healthy)
    ensures AllCarry(a + b, healthy)
  {
    forall k | 0 <= k < |a + b| ensures (a + b)[k].healthy == healthy {
      if k >= |a| { assert (a + b)[k] == b[k - |a|]; }
    }
  }

  /** After any of those events the last triple is unhealthy. */
  lemma {:induction false} FailureEndsUnhealthy(c: string, healthy: bool, hs: seq<string>)
    requires !AllFound(c, healthy, hs)
    ensures ChunkFrom(c, healthy, hs) != []
    ensures !ChunkFrom(c, healthy, hs)[|ChunkFrom(c, healthy, hs)| - 1].healthy
    decreases |hs|
  {
    if !Blank(c) {
      var st := StepOn(c, healthy, hs[0]);
      ChunkFromUnfold(c, healthy, hs, st);
      var tail := ChunkFrom(st.rest, st.healthy, hs[1..]);
      if Strip(hs[0]) != [] && Occurs(c, Strip(hs[0])) {
        FailureEndsUnhealthy(st.rest, healthy, hs[1..]);
      } else {
        assert tail[|tail| - 1] in tail;
      }
      LastOfAppend(st.out, tail);
    }
  }

  lemma LastOfAppend(a: seq<Triple>, b: seq<Triple>)
    requires b != []
    ensures (a + b)[|a + b| - 1] == b[|b| - 1]
  {
  }

  /** The flag on the last triple is true exactly when the template is blank
      or none of the three events happened. */
  lemma LastHealthy(s: string, hrefs: seq<string>)
    ensures Chunks(s, hrefs)[|Chunks(s, hrefs)| - 1].healthy <==> Blank(s) || AllFound(s, true, hrefs)
  {
    if !Blank(s) {
      if AllFound(s, true, hrefs) {
        AllFoundKeepsFlag(s, true, hrefs);
      } else {
        FailureEndsUnhealthy(s, true, hrefs);
      }
    }
  }

  /** The flag only ever goes from true to false (lines 84, 93, 102, 155). */
  lemma {:induction false} HealthOnlyFalls(c: string, healthy: bool, hs: seq<string>)
    ensures FlagOnlyFalls(ChunkFrom(c, healthy, hs))
    decreases |hs|
  {
    if hs != [] && !Blank(c) {
      var st := StepOn(c, healthy, hs[0]);
      ChunkFromUnfold(c, healthy, hs, st);
      HealthOnlyFalls(st.rest, st.healthy, hs[1..]);
      var tail := ChunkFrom(st.rest, st.healthy, hs[1..]);
      StepOnShape(c, healthy, hs[0]);
      assert !healthy ==> AllCarry(tail, false) by {
        if !healthy {
          forall k | 0 <= k < |tail| ensures !tail[k].healthy {
            assert tail[k] in tail;
          }
        }
      }
      FallsAppend(st.out, tail, healthy);
    }
  }

  /** A uniformly flagged block followed by a block that only falls, and is
      all unhealthy when the first block is. */
  lemma FallsAppend(a: seq<Triple>, b: seq<Triple>, healthy: bool)
    requires AllCarry(a, healthy) && FlagOnlyFalls(b)
    requires !healthy ==> AllCarry(b, false)
    ensures FlagOnlyFalls(a + b)
  {
    forall i, j | 0 <= i <= j < |a + b| && !(a + b)[i].healthy ensures !(a + b)[j].healthy {
      if j >= |a| {
        assert (a + b)[j] == b[j - |a|];
        if i >= |a| { assert (a + b)[i] == b[i - |a|]; }
      }
    }
  }

  lemma HealthOnlyFallsInChunks(s: string, hrefs: seq<string>)
    ensures FlagOnlyFalls(Chunks(s, hrefs))
  {
    if !Blank(s) {
      HealthOnlyFalls(s, true, hrefs);
    }
  }

  // ---- what the yielded triples look like ----

  /** The stripped hrefs, in order. */
  function StrippedHrefs(hs: seq<string>): seq<string> {
    if hs == [] then [] else [Strip(hs[0])] + StrippedHrefs(hs[1..])
  }

  /** Every link triple links to one of `targets`, which is not empty, and
      shows a non-empty text. */
  predicate LinksInto(out: seq<Triple>, targets: seq<string>) {
    forall k :: 0 <= k < |out| && out[k].link.Some? ==>
      out[k].link.value != [] && out[k].link.value in targets && out[k].text != []
  }

  /** Only the last triple may have an empty text. */
  predicate TextsBeforeLast(out: seq<Triple>) {
    forall k :: 0 <= k < |out| - 1 ==> out[k].text != []
  }

  /** Every triple has a non-empty text. */
  predicate AllTexts(out: seq<Triple>) {
    forall k :: 0 <= k < |out| ==> out[k].text != []
  }

  /** What one href yields: triples that keep the flag, have non-empty texts
      and link only to the stripped href, which is not empty. */
  lemma StepOnShape(c: string, healthy: bool, href: string)
    ensures var st := StepOn(c, healthy, href);
            LinksInto(st.out, [Strip(href)]) && AllTexts(st.out) && AllCarry(st.out, healthy)
  {
    var st := StepOn(c, healthy, href);
    forall k | 0 <= k < |st.out|
      ensures Emitted(st.out[k], Strip(href), healthy) && Strip(href) != []
    {
    }
  }

  lemma LinksAppend(a: seq<Triple>, b: seq<Triple>, ta: seq<string>, tb: seq<string>)
    requires LinksInto(a, ta) && LinksInto(b, tb)
    ensures LinksInto(a + b, ta + tb)
  {
    forall k | 0 <= k < |a + b| && (a + b)[k].link.Some?
      ensures (a + b)[k].link.value != [] && (a + b)[k].link.value in ta + tb && (a + b)[k].text != []
    {
      if k < |a| {
        assert (a + b)[k] == a[k];
      } else {
        assert (a + b)[k] == b[k - |a|];
      }
    }
  }

  lemma TextsAppend(a: seq<Triple>, b: seq<Triple>)
    requires AllTexts(a) && TextsBeforeLast(b)
    ensures TextsBeforeLast(a + b)
  {
    forall k | 0 <= k < |a + b| - 1 ensures (a + b)[k].text != [] {
      if k >= |a| { assert (a + b)[k] == b[k - |a|]; }
    }
  }

  /** Lines 105, 125-141, 145-151 and 156-157: link triples link to a
      stripped, non-empty href of the list and show a non-empty text; every
      plain span but the last is non-empty (the last can be the blank cursor
      of lines 91-95). */
  lemma {:induction false} ChunkFromShape(c: string, healthy: bool, hs: seq<string>)
    ensures LinksInto(ChunkFrom(c, healthy, hs), StrippedHrefs(hs))
    ensures TextsBeforeLast(ChunkFrom(c, healthy, hs))
    decreases |hs|
  {
    if hs != [] && !Blank(c) {
      var st := StepOn(c, healthy, hs[0]);
      ChunkFromUnfold(c, healthy, hs, st);
      ChunkFromShape(st.rest, st.healthy, hs[1..]);
      var tail := ChunkFrom(st.rest, st.healthy, hs[1..]);
      StepOnShape(c, healthy, hs[0]);
      assert StrippedHrefs(hs) == [Strip(hs[0])] + StrippedHrefs(hs[1..]);
      LinksAppend(st.out, tail, [Strip(hs[0])], StrippedHrefs(hs[1..]));
      TextsAppend(st.out, tail);
    }
  }

  lemma ChunksShape(s: string, hrefs: seq<string>)
    ensures LinksInto(Chunks(s, hrefs), StrippedHrefs(hrefs))
    ensures TextsBeforeLast(Chunks(s, hrefs))
  {
    if !Blank(s) {
      ChunkFromShape(s, true, hrefs);
    }
  }

  // ---- nothing to do, and skipped hrefs ----

  /** Lines 84-88 and 156-157: with no hrefs, or a blank template, the
      template comes back whole as one healthy plain span. */
  lemma NoWork(s: string, hrefs: seq<string>)
    requires hrefs == [] || Blank(s)
    ensures Chunks(s, hrefs) == [Triple(s, None, true)]
  {
  }

  /** Lines 97-102 and 153-155: an href that is blank once stripped, or not in
      the cursor, yields nothing and leaves the cursor alone; only the flag
      changes, and the remaining hrefs are processed as usual. */
  lemma SkippedHref(c: string, healthy: bool, href: string, hs: seq<string>)
    requires !Blank(c)
    requires Strip(href) == [] || !Occurs(c, Strip(href))
    ensures ChunkFrom(c, healthy, [href] + hs) == ChunkFrom(c, false, hs)
  {
    assert ([href] + hs)[0] == href && ([href] + hs)[1..] == hs;
  }
}
