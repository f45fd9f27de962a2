# docstypo3 link chunker, modelled in Dafny

The Sphinx extension `sphinxcontrib-docstypo3` turns a configuration value such
as `Home (https://example.org)` or `See [TYPO3](https://typo3.org/)` into
docutils nodes: plain text, and external references for the hrefs that the
reStructuredText parser found in that text. This project models the part that
decides how the text is cut up:

- `char_at`, a bounds-checked character lookup;
- `iter_chunks`, which walks the hrefs left to right over a shrinking cursor
  into the template. It yields `(text, link-or-None, healthy)` triples and
  recognises five forms:
  - a bare href at the start of the cursor;
  - `(href)`;
  - `Text (href)`;
  - `[linktext](href)`;
  - `<href>`.
- `get_replacement_from_string_and_document`, which turns those triples into
  reference and text nodes.

Files:

- `pystr.dfy` (module `PyStr`): the Python `str` built-ins the code relies on.
  - `isspace`, as the exact set of code points Python accepts;
  - the argument-less `strip` and `rstrip`;
  - `find`.
- `chunker.dfy` (module `Chunker`): `char_at`, and `iter_chunks` on two levels.
  - Specification: one function per punctuation form, `OnMatch` choosing
    between them, `StepOn` for one href, and `ChunkFrom`/`Chunks` for the
    whole scan.
  - Code: the methods `FindLeftBracket` (the backward `for` loop with
    `break`), `EmitMatch` (the branch for a match), `ScanHref` (one loop
    iteration) and `IterChunks` (the loop over the hrefs with its early
    returns).
  - Each method is proved equal to the function that specifies it.
- `chunk_laws.dfy` (module `ChunkLaws`): what the scan promises.
  - Which spans rebuild the consumed text.
  - How the `healthy` flag moves.
  - What skipped hrefs do.
  - The shape of every yielded triple.
- `replacement.dfy` (module `Replacement`): the node datatype, the assembler
  loop and `get_replacement_from_string_and_document`.
- `docstring.dfy` (module `DocstringCases`): the six behaviours listed in the
  docstring of `iter_chunks`.
  - The general lemmas (`BareUrl`, `ParenUrl`, `BracketUrl`, `AngledUrl`)
    cover any href that is already stripped and any text after it.
  - The `Doc*` lemmas cover each docstring line for any such href that does
    not start with a character of the text before it; `ExampleFits` shows
    that `https://example.org` is one, and `DocExamples` states the six
    lines for it.

Behaviour of the code that the model follows exactly:

- The template is checked for blankness (`not s.strip()`) before any href
  is looked at. A blank template therefore always gives the single triple
  `(s, None, True)`, even when the hrefs include blank ones (`NoWork`).
  A blank or missing href makes the final flag false only for a non-blank
  template (`LastHealthy`).
- The spans do not rebuild the text in the `(href)` forms. `Text (href)`
  drops the `(` and `)` and also the whitespace before the `(`.
  `[linktext](href)` drops `[`, `](` and `)`. `CaptionedRebuilds` and
  `BracketedRebuilds` state exactly what is kept; `MatchRebuilds` states that
  every other form loses nothing.
- `find` looks for the stripped href and takes its first occurrence in the
  cursor, wherever it is. The docstring lemmas therefore assume that the
  first character of the href does not occur earlier in the line.

## Model

| member | source | states |
|---|---|---|
| PyStr.IsSpaceTable | sphinxcontrib/docstypo3/utils.py:97 | `IsSpace`, written as ranges, accepts exactly the 29 code points of Python's `str.isspace` table, listed one by one; these are what the argument-less `strip`/`rstrip` remove |
| PyStr.Strip | sphinxcontrib/docstypo3/utils.py:97 | the result is the input with a whitespace-only prefix and a whitespace-only suffix cut off, and it neither starts nor ends with whitespace (which fixes it uniquely); it is empty exactly when every character is whitespace |
| PyStr.StripUnique | sphinxcontrib/docstypo3/utils.py:97 | any string that is the input with whitespace cut from both ends, and that neither starts nor ends with whitespace, is `Strip` of the input, so `Strip`'s contract pins down `str.strip()` |
| PyStr.RStrip | sphinxcontrib/docstypo3/utils.py:132-133 | the result is a prefix of the input that does not end in whitespace, and what it cuts off is all whitespace |
| PyStr.Find | sphinxcontrib/docstypo3/utils.py:99 | the result is -1 exactly when the pattern does not occur; otherwise the pattern occurs there and at no earlier index |
| PyStr.FindAfter | sphinxcontrib/docstypo3/utils.py:99 | a pattern whose first character is absent from the text before it is found right after that text |
| Chunker.CharAt | sphinxcontrib/docstypo3/utils.py:62-66 | None exactly when the index is negative or past the end; otherwise the character at the index |
| Chunker.BlankIsEmptyStrip | sphinxcontrib/docstypo3/utils.py:86 | `Blank(s)`, the model's `not s.strip()` (also at lines 91, 98 and 128), holds exactly when `s.strip()` is empty, that is when every character is whitespace |
| Chunker.Between | sphinxcontrib/docstypo3/utils.py:108-114 | `char_before == open and char_next == close` holds exactly when the match has a character on each side (index `p-1` is at least 0 and `p+len(href)` is inside the cursor) and those characters are `open` and `close` |
| Chunker.LastIndexBefore | sphinxcontrib/docstypo3/utils.py:117-120 | the nearest `[` before the bound, with none between it and the bound; None only when there is no `[` before the bound |
| Chunker.LeftBracket | sphinxcontrib/docstypo3/utils.py:110-120 | a `[` is found only when `]` sits just before the `(`; it is the last `[` before that `]`; None means no `]` there or no `[` before it |
| Chunker.FindLeftBracket | sphinxcontrib/docstypo3/utils.py:114-120 | the backward loop with `break` returns exactly what `LeftBracket` specifies |
| Chunker.AtStart | sphinxcontrib/docstypo3/utils.py:103-106 | a match at index 0 yields non-empty triples that keep the flag, and the cursor becomes a strictly shorter suffix |
| Chunker.Bracketed | sphinxcontrib/docstypo3/utils.py:122-142 | the `[text](href)` branch yields non-empty triples that keep the flag, and the cursor becomes a strictly shorter suffix |
| Chunker.Captioned | sphinxcontrib/docstypo3/utils.py:131-142 | the `Text (href)` branch yields non-empty triples that keep the flag, and the cursor becomes a strictly shorter suffix |
| Chunker.Angled | sphinxcontrib/docstypo3/utils.py:144-148 | the `<href>` branch yields non-empty triples that keep the flag, and the cursor becomes a strictly shorter suffix |
| Chunker.Inline | sphinxcontrib/docstypo3/utils.py:149-152 | the branch for an href with no recognised punctuation yields non-empty triples that keep the flag, and the cursor becomes a strictly shorter suffix |
| Chunker.OnMatch | sphinxcontrib/docstypo3/utils.py:103-152 | whatever form the match takes, the cursor ends strictly shorter and a suffix of the old one, and every yielded triple is non-empty and keeps the flag |
| Chunker.StepOn | sphinxcontrib/docstypo3/utils.py:96-155 | an href that is blank once stripped, or whose stripped form is absent, yields nothing, keeps the cursor and turns the flag false; otherwise the cursor strictly shrinks as a suffix |
| Chunker.ChunkFrom | sphinxcontrib/docstypo3/utils.py:90-157 | a non-blank cursor always yields something; once the flag is false, every later triple is unhealthy |
| Chunker.Chunks | sphinxcontrib/docstypo3/utils.py:84-157 | `iter_chunks` always yields at least one triple |
| Chunker.EmitMatch | sphinxcontrib/docstypo3/utils.py:103-152 | the branch code for a match yields the triples and cursor that `OnMatch` specifies |
| Chunker.ScanHref | sphinxcontrib/docstypo3/utils.py:96-155 | one loop iteration does what `StepOn` specifies and leaves a suffix of the cursor |
| Chunker.IterChunks | sphinxcontrib/docstypo3/utils.py:69-157 | the loop, with its early returns and the final yield, outputs exactly `Chunks(s, hrefs)` |
| Chunker.LeftBracketUnique | sphinxcontrib/docstypo3/utils.py:114-120 | the contract of the bracket search determines its result |
| Chunker.ChunkFromStep | sphinxcontrib/docstypo3/utils.py:90-155 | after one more href, the triples so far plus that href's triples plus the rest of the scan are still the whole output |
| ChunkLaws.AtStartRebuilds | sphinxcontrib/docstypo3/utils.py:103-106 | for a match at index 0, the yielded spans followed by the new cursor are the old cursor |
| ChunkLaws.InlineRebuilds | sphinxcontrib/docstypo3/utils.py:149-152 | for a match with no recognised punctuation, the spans followed by the new cursor are the old cursor |
| ChunkLaws.AngledRebuilds | sphinxcontrib/docstypo3/utils.py:144-148 | `<href>` yields exactly three triples: text ending in `<`, the href linking to itself, and `>`; together with the new cursor they are the old cursor |
| ChunkLaws.BracketedRebuilds | sphinxcontrib/docstypo3/utils.py:122-142 | the old cursor is the plain text yielded, then `[`, the raw link text, `](`, the href, `)` and the new cursor; the last triple shows the link text, or the href when that is blank |
| ChunkLaws.CaptionedRebuilds | sphinxcontrib/docstypo3/utils.py:131-142 | the old cursor is the text before `(`, then `(href)` and the new cursor; visible text before `(` becomes the display text without its trailing whitespace; blank text is kept as plain text, followed by the href linking to itself |
| ChunkLaws.RStripBlank | sphinxcontrib/docstypo3/utils.py:132-135 | `rstrip` leaves nothing exactly when the text is blank |
| ChunkLaws.MatchRebuilds | sphinxcontrib/docstypo3/utils.py:103-152 | outside the `(href)` forms, the spans followed by the new cursor are exactly the old cursor |
| ChunkLaws.AllFoundKeepsFlag | sphinxcontrib/docstypo3/utils.py:90-155 | when every href is non-blank and found and the cursor never goes blank, every triple carries the flag it started with |
| ChunkLaws.FailureEndsUnhealthy | sphinxcontrib/docstypo3/utils.py:90-157 | a blank href, a missing href, or a cursor going blank while hrefs remain leaves the last triple unhealthy |
| ChunkLaws.LastHealthy | sphinxcontrib/docstypo3/utils.py:84-157 | the last triple is healthy exactly when the template is blank or every href was found in turn |
| ChunkLaws.HealthOnlyFalls | sphinxcontrib/docstypo3/utils.py:90-155 | once a triple is unhealthy, so is every later triple |
| ChunkLaws.HealthOnlyFallsInChunks | sphinxcontrib/docstypo3/utils.py:84-157 | the flag in the output of `iter_chunks` goes only from true to false |
| ChunkLaws.StepOnShape | sphinxcontrib/docstypo3/utils.py:96-155 | one href yields triples with non-empty text and the current flag; every link is the stripped href |
| ChunkLaws.ChunkFromShape | sphinxcontrib/docstypo3/utils.py:90-157 | every link triple links to one of the stripped hrefs and has non-empty text; only the last triple may have empty text |
| ChunkLaws.ChunksShape | sphinxcontrib/docstypo3/utils.py:84-157 | the same for the whole output of `iter_chunks` |
| ChunkLaws.NoWork | sphinxcontrib/docstypo3/utils.py:84-157 | with no hrefs, or a blank template, the output is exactly `(s, None, True)` |
| ChunkLaws.SkippedHref | sphinxcontrib/docstypo3/utils.py:96-155 | an href that is blank once stripped, or absent from the cursor, changes nothing but the flag, and the later hrefs are still processed |
| Replacement.HasLink | sphinxcontrib/docstypo3/utils.py:164 | `if href:` is Python truthiness: true unless the link is None or the empty string |
| Replacement.TokenOf | sphinxcontrib/docstypo3/utils.py:164-174 | at most one node per triple; a reference exactly when the href is truthy, showing the triple's text and pointing at the href; otherwise a text node with the triple's text exactly when that text is non-empty, and nothing when it is empty |
| Replacement.ToTokens | sphinxcontrib/docstypo3/utils.py:163-174 | no more nodes than triples; no text node is empty and every reference has a target |
| Replacement.ToTokensAppend | sphinxcontrib/docstypo3/utils.py:163-174 | order is preserved: the nodes of two runs of triples are the nodes of each, in order |
| Replacement.ReplacementShape | sphinxcontrib/docstypo3/utils.py:160-175 | every reference points at one of the stripped hrefs and shows a non-empty text, and no text node is empty |
| Replacement.Assemble | sphinxcontrib/docstypo3/utils.py:163-175 | the append loop builds exactly `ToTokens` of the triples |
| Replacement.GetReplacement | sphinxcontrib/docstypo3/utils.py:160-175 | the replacement is the nodes of `iter_chunks(text, hrefs)`, in order |
| DocstringCases.OneHref | sphinxcontrib/docstypo3/utils.py:90-157 | with a single href and a non-blank template, the output is that href's triples, then the rest of the cursor as plain text |
| DocstringCases.UrlFound | sphinxcontrib/docstypo3/utils.py:97-99 | an href already stripped, whose first character is absent before it, is found right where it sits |
| DocstringCases.BareMatch | sphinxcontrib/docstypo3/utils.py:103-106 | an href at the start links to itself, and the cursor moves past it |
| DocstringCases.BareUrl | sphinxcontrib/docstypo3/utils.py:103-106 | (docstring line 73) `h tail` gives a reference showing `h`, then the tail as text |
| DocstringCases.AngledMatch | sphinxcontrib/docstypo3/utils.py:144-148 | `<h>` yields the text up to `<`, the href and `>`, and the cursor moves past `>` |
| DocstringCases.AngledUrl | sphinxcontrib/docstypo3/utils.py:144-148 | (docstring line 76) `lead<h>tail` gives the text `lead<`, a reference showing `h`, the text `>`, then the tail |
| DocstringCases.BracketMatch | sphinxcontrib/docstypo3/utils.py:114-142 | `[d](h)` with its `[` found yields the text before `[` when there is any, then `d` (or `h` when `d` is blank) linking to `h` |
| DocstringCases.BracketUrl | sphinxcontrib/docstypo3/utils.py:114-142 | (docstring lines 75 and 78) `lead[d](h)tail` gives `lead` as text if non-empty, a reference to `h` showing `d` (or `h` when `d` is blank), then the tail |
| DocstringCases.ParenMatch | sphinxcontrib/docstypo3/utils.py:114-142 | `(h)` with no `[...]` before it yields the text before `(` without its trailing whitespace as the display text, or, when that is empty, the whitespace as text and `h` linking to itself |
| DocstringCases.ParenUrl | sphinxcontrib/docstypo3/utils.py:114-142 | (docstring lines 74 and 77) `pre(h)tail` gives a reference showing `pre` without its trailing whitespace, or, for blank `pre`, `pre` as text (if non-empty) and a reference showing `h`; then the tail |
| DocstringCases.ExampleFits | sphinxcontrib/docstypo3/utils.py:73-78 | `https://example.org` is already stripped and starts with a character absent from the text before it on every docstring line |
| DocstringCases.DocBare | sphinxcontrib/docstypo3/utils.py:73 | a bare href becomes one reference showing itself |
| DocstringCases.DocParens | sphinxcontrib/docstypo3/utils.py:74 | `(href)` becomes one reference showing the href |
| DocstringCases.DocBlankBrackets | sphinxcontrib/docstypo3/utils.py:75 | `[  ](href)` becomes one reference showing the href |
| DocstringCases.DocAngled | sphinxcontrib/docstypo3/utils.py:76 | `<href>` becomes the text `<`, a reference showing the href, and the text `>` |
| DocstringCases.DocCaption | sphinxcontrib/docstypo3/utils.py:77 | `Home (href)` becomes one reference showing `Home` |
| DocstringCases.DocLinkText | sphinxcontrib/docstypo3/utils.py:78 | `Text [linktext](href)` becomes the text `Text ` and a reference showing `linktext` |
| DocstringCases.DocExamples | sphinxcontrib/docstypo3/utils.py:73-78 | the six docstring lines with the docstring's own href `https://example.org` give exactly the nodes shown there |

## Left out

- `parse_rst_string` and `SettingsFaker` (utils.py lines 25-59) set up the docutils reStructuredText parser, and `get_replacements_from_parsed_string` (lines 178-181) calls it. Both depend on docutils, so they are not part of this model.
- The collection of hrefs by walking the parsed document for `nodes.reference` (line 162) is docutils tree walking. `GetReplacement` takes the href list as a parameter instead.
- `nodes.reference` and `nodes.Text` (lines 165-174) are modelled as the `Token` datatype: the display text and target of a reference, or the text of a text node. The `internal=False` flag and docutils' node internals are not modelled.
- `iter_chunks` is a generator; the model returns the finite sequence it yields, so laziness and a consumer stopping early are not modelled.
- `json_safe_dict` (lines 10-22) relies on `json.dumps` raising `TypeError`, and its fallback names an undefined `STRINGIFIED`; it is not part of this model.
- The `__main__` demo (lines 185-198) only prints.
- `sphinxcontrib/docstypo3/__init__.py` is Sphinx plumbing (a config hook filling a module-level dict, a document transform, a version lookup) and is not part of this model.
- Python strings are sequences of code points, and so are Dafny's `string`s. A Python `str` can also hold lone surrogate code points (U+D800 to U+DFFF), which a Dafny `char` cannot; strings containing them are not modelled. None of them is whitespace, so strip, rstrip and find would treat them like any other non-whitespace character.
