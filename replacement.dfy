/** `get_replacement_from_string_and_document`: the chunker's triples turned
    into the nodes that replace the text, in order. */
module Replacement {
  import opened PyStr
  import opened Chunker
  import opened ChunkLaws

  /** The two kinds of node the source builds: a `nodes.Text` and an external
      `nodes.reference` showing `display` and pointing at `uri`. */
  datatype Token = Text(text: string) | Reference(display: string, uri: string)

  /** Python truthiness of the href slot of a triple: neither None nor "". */
  predicate HasLink(t: Triple): (b: bool)
    ensures b <==> t.link != None && t.link != Some([])
  {
    t.link.Some? && t.link.value != []
  }

  /** The node for one triple (lines 164-174), if any: a reference exactly
      when the href is truthy, otherwise a text node exactly when the text
      is non-empty; either shows the triple's text. */
  function TokenOf(t: Triple): (r: seq<Token>)
    ensures |r| <= 1
    ensures r == [] <==> !HasLink(t) && t.text == []
    ensures r != [] ==> (r[0].Reference? <==> HasLink(t))
    ensures r != [] && r[0].Reference? ==> r[0].display == t.text && Some(r[0].uri) == t.link
    ensures r != [] && r[0].Text? ==> r[0].text == t.text
  {
    if HasLink(t) then [Reference(t.text, t.link.value)]
    else if t.text != [] then [Text(t.text)]
    else []
  }

  /** Text tokens are never empty and references always have a target. */
  predicate NoEmptyTokens(r: seq<Token>) {
    forall k :: 0 <= k < |r| ==> (r[k].Text? ==> r[k].text != []) && (r[k].Reference? ==> r[k].uri != [])
  }

  /** The nodes for a sequence of triples, in the order of the triples. */
  function ToTokens(ts: seq<Triple>): (r: seq<Token>)
    ensures |r| <= |ts|
    ensures NoEmptyTokens(r)
    decreases |ts|
  {
    if ts == [] then []
    else
      var r := TokenOf(ts[0]) + ToTokens(ts[1..]);
      assert NoEmptyTokens(r) by {
        forall k | 0 <= k < |r| ensures (r[k].Text? ==> r[k].text != []) && (r[k].Reference? ==> r[k].uri != []) {
          if k >= |TokenOf(ts[0])| {
            assert r[k] == ToTokens(ts[1..])[k - |TokenOf(ts[0])|];
          }
        }
      }
      r
  }

  /** Order is preserved: the nodes of two runs of triples are the nodes of
      the first run followed by those of the second. */
  lemma {:induction false} ToTokensAppend(a: seq<Triple>, b: seq<Triple>)
    ensures ToTokens(a + b) == ToTokens(a) + ToTokens(b)
    decreases |a|
  {
    if a == [] {
      assert a + b == b;
    } else {
      assert (a + b)[0] == a[0] && (a + b)[1..] == a[1..] + b;
      ToTokensAppend(a[1..], b);
      AppendAssoc(TokenOf(a[0]), ToTokens(a[1..]), ToTokens(b));
    }
  }

  /** Every reference shows a non-empty text and points at one of `targets`. */
  predicate RefsInto(r: seq<Token>, targets: seq<string>) {
    forall k :: 0 <= k < |r| && r[k].Reference? ==> r[k].display != [] && r[k].uri in targets
  }

  lemma {:induction false} RefsFromLinks(ts: seq<Triple>, targets: seq<string>)
    requires LinksInto(ts, targets)
    ensures RefsInto(ToTokens(ts), targets)
    decreases |ts|
  {
    if ts != [] {
      assert LinksInto(ts[1..], targets) by {
        forall k | 0 <= k < |ts[1..]| && ts[1..][k].link.Some?
          ensures ts[1..][k].link.value != [] && ts[1..][k].link.value in targets && ts[1..][k].text != []
        {
          assert ts[1..][k] == ts[k + 1];
        }
      }
      RefsFromLinks(ts[1..], targets);
      var head: seq<Token> := TokenOf(ts[0]);
      var rest: seq<Token> := ToTokens(ts[1..]);
      forall k | 0 <= k < |head + rest| && (head + rest)[k].Reference?
        ensures (head + rest)[k].display != [] && (head + rest)[k].uri in targets
      {
        if k >= |head| {
          assert (head + rest)[k] == rest[k - |head|];
        }
      }
    }
  }

  /** What `get_replacement_from_string_and_document` returns: every
      reference points at one of the stripped hrefs and shows a non-empty
      text, and no text node is empty. */
  lemma ReplacementShape(text: string, hrefs: seq<string>)
    ensures RefsInto(ToTokens(Chunks(text, hrefs)), StrippedHrefs(hrefs))
    ensures NoEmptyTokens(ToTokens(Chunks(text, hrefs)))
  {
    ChunksShape(text, hrefs);
    RefsFromLinks(Chunks(text, hrefs), StrippedHrefs(hrefs));
  }

  /** The loop of lines 161-175 over the triples: one node appended for each
      triple that gives one, in order. */
  method Assemble(chunks: seq<Triple>) returns (replacement: seq<Token>)
    ensures replacement == ToTokens(chunks)
  {
    replacement := [];
    for i := 0 to |chunks|
      invariant replacement == ToTokens(chunks[..i])
    {
      var t := chunks[i];
      assert chunks[..i + 1] == chunks[..i] + [t];
      ToTokensAppend(chunks[..i], [t]);
      assert ToTokens([t]) == TokenOf(t) by {
        assert [t][1..] == [];
      }
      if t.link.Some? && t.link.value != [] {
        replacement := replacement + [Reference(t.text, t.link.value)];
      } else if t.text != [] {
        replacement := replacement + [Text(t.text)];
      }
    }
    assert chunks[..|chunks|] == chunks;
  }

  /** `get_replacement_from_string_and_document` (lines 160-175), with the
      hrefs of the parsed document passed in. */
  method GetReplacement(text: string, hrefs: seq<string>) returns (replacement: seq<Token>)
    ensures replacement == ToTokens(Chunks(text, hrefs))
  {
    var chunks := IterChunks(text, hrefs);
    replacement := Assemble(chunks);
  }
}
