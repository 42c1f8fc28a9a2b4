# Wikipedia-to-gemtext conversion engine, modelled in Dafny

This project models the conversion engine of a gateway that serves
encyclopedia articles over a line-oriented text protocol. The engine takes
the HTML tree that a wikitext parser produces and walks it. It writes
headings (`#`, `##`, `###`), bullet lines (`* `), paragraphs and inline
link text. Link targets are held back in a *footer* of `=> target name`
lines. The footer is flushed before each heading, at the end of each
paragraph with content, and once more at the end of the page.

Files and modules:

- `html.dfy`, module `Html`. The parsed tree: `Node` is `Error | Text | Document | Element | Comment | Doctype | Raw`. A sibling chain is a `seq<Node>`. The module also has newline stripping (`StripNewlines`), the "first `href` attribute" lookup (`Href`) and the anchor's attribute scan (`FindHref`).
- `footer.dfy`, module `LinkFooter`. The `Footer` class holds a `lines: seq<string>` field and has `AddLink`, `String` and `Reset`. `FooterText` is the text a flush writes.
- `text.dfy`, module `TextExtract`. `Flatten`/`FlattenSeq` specify `getText`. `GetText` is the recursive method with a cursor loop over the children.
- `render.dfy`, module `Gemtext`. `RenderChain` specifies `render` as a pure function. `Render` is the cursor loop over a sibling chain, and `FindClosingRef` is its inner search for a closing `ref`. `RenderOne`, `RenderElement`, `RenderListItem`, `RenderParagraph` and `RenderAnchor` carry the per-kind and per-tag rules of the loop body. `Convert` is the tail of `convert`.
- `properties.dfy`, module `GemtextProperties`. Proves that every link line is flushed exactly once, in order, after its anchor's text.
- `rules.dfy`, module `TagRules`. Proves the per-tag rules and how `ref` brackets cut a chain.

The model describes the output of the pure rendering functions as a sequence of *pieces*:

- `Inline(text)`: ordinary text.
- `Anchor(name, line)`: the display text of an anchor, together with the link line it added to the footer.
- `Links(lines)`: a footer flush, which writes `"\n"` and then the lines.

`Join` gives the text the pieces stand for. `Render` and `Convert` are proved to write exactly `Join` of the specified pieces. The footer they leave behind is the specified one.

`Balanced` is an independent check over the pieces. It replays them against a footer and requires each flush to write exactly the lines pending at that point. The main theorem, `ConvertFlushesEveryLinkOnce`, shows that the pieces of every page pass this replay. So every link line that an anchor adds is written in exactly one footer block, in the order the lines were added, and no other line appears in any footer block.

## Model

| member | source | states |
|---|---|---|
| `Html.StripNewlines` | wiki.go:124 | The result has no newline and is no longer than the input. It equals the input when the input has no newline. Every other character keeps its count, so nothing is substituted for a removed newline. The order of the kept characters is fixed by `StripNewlinesAppend` and `StripNewlinesJoinsLines`. |
| `Html.StripNewlinesAppend` | wiki.go:233 | Stripping distributes over concatenation, so text split across nodes is stripped the same as joined text. |
| `Html.StripNewlinesJoinsLines` | wiki.go:124 | A newline between two stretches of text disappears, and the two stretches are joined in their original order. |
| `Html.IsRef` | wiki.go:205 | An element whose tag is exactly `ref`, the marker that opens or closes a citation bracket. It is also the test at wiki.go:211 that stops the skip. |
| `Html.Href` | wiki.go:187-193 | The value of the first attribute whose key is exactly `href`, or `""` when no attribute has that key. |
| `Html.FindHref` | wiki.go:187-193 | The anchor's scan of its attributes, stopping at the first `href`, returns `Href`. A non-empty result is the value of some `href` attribute. |
| `LinkFooter.ConcatSplit` | wiki.go:259-261 | Each pending line stands in the footer text between all the lines before it and all the lines after it, in insertion order. |
| `LinkFooter.FooterTextAppend` | wiki.go:254-257 | Adding a line appends exactly that line to the footer's text. |
| `LinkFooter.LinkLine` | wiki.go:254-257 | One link line: `"=> "`, the escaped target, a single space, the display text, and a final newline. Its length is the two texts' lengths plus five. |
| `LinkFooter.Footer.constructor` | wiki.go:250-252 | A new footer has no lines, and its `String()` is `"\n"`. |
| `LinkFooter.Footer.AddLink` | wiki.go:254-257 | Appends exactly one line `"=> " + escape(href) + " " + name + "\n"`. There is no deduplication, and the target is escaped when the link is added. |
| `LinkFooter.Footer.String` | wiki.go:259-261 | A flush always starts with a newline. A footer with no lines flushes exactly `"\n"`. |
| `LinkFooter.Footer.Reset` | wiki.go:263-265 | Clears every line. `String()` is then exactly `"\n"`, so a second flush with no `AddLink` in between writes only `"\n"`. |
| `TextExtract.Flatten` | wiki.go:227-244 | The flattened text of a node contains no newline. Text gives its stripped data, an element gives its children's text, and every other node gives nothing. |
| `TextExtract.FlattenSeq` | wiki.go:235-242 | The flattened text of a chain contains no newline. |
| `TextExtract.FlattenSeqAppend` | wiki.go:236-242 | The flattened text of a chain is the concatenation of its parts' flattened texts, in order. |
| `TextExtract.FlattenIgnoresMarkup` | wiki.go:227-244 | Two nodes that differ only in the tags and attributes of elements anywhere in the subtree flatten to the same text. |
| `TextExtract.FlattenSeqIgnoresMarkup` | wiki.go:235-242 | The same, for two sibling chains that differ pairwise only in markup. |
| `TextExtract.FlattenTexts` | wiki.go:232-233 | A chain of text nodes flattens to their concatenated data with every newline removed. |
| `TextExtract.GetText` | wiki.go:227-244 | The cursor walk over the children returns exactly `Flatten(n)`, which has no newline. |
| `Gemtext.RenderChain` | wiki.go:114-225 | The specification of `render` for a sibling chain, starting from a footer holding some pending lines. `[]` writes nothing. A `ref` hands over to `SkipRef`. Any other node is rendered, and the rest of the chain starts from the lines it leaves pending. Its properties are stated by `Render` and the lemmas of `TagRules` and `GemtextProperties`. |
| `Gemtext.SkipRef` | wiki.go:205-214 | The siblings after an opening `ref`: every one up to and including the next `ref` is dropped, then the chain goes on. With no closing `ref` the chain ends. Its properties are stated by `FindClosingRef`, `SkipPast`, `RefPairHidden` and `RefUnclosedEndsChain`. |
| `Gemtext.RenderNode` | wiki.go:119-219 | The specification of one non-`ref` node, per node kind and per tag. Its properties are stated by `RenderOne` and the per-tag lemmas of `TagRules`. |
| `Gemtext.HeadingMarker` | wiki.go:129-170 | A heading's marker is one to three `#` and nothing else. `HeadingMarkerLevel` gives the exact count per level. |
| `Gemtext.HeadingOutput` | wiki.go:130-135 | A heading first flushes every pending line and leaves nothing pending. |
| `Gemtext.ItemKept` | wiki.go:175 | A kept item is never empty. Every item longer than one character is kept. |
| `Gemtext.ItemOutput` | wiki.go:171-177 | The specification of a list item: the bullet line around its children's pieces, or only their links when it is dropped. Its properties are stated by `ItemText`, `ListItemLine` and `ListItemAddsNoFlush`. |
| `Gemtext.ParagraphHasContent` | wiki.go:179 | A paragraph with content has a first child. A first child that is not a text node always gives content. |
| `Gemtext.ParagraphOutput` | wiki.go:178-185 | The specification of a paragraph. Its properties are stated by `ParagraphText`, `EmptyParagraphSilent` and `ParagraphFlushes`. |
| `Gemtext.AnchorOutput` | wiki.go:186-202 | The specification of an anchor. Its properties are stated by `AnchorWithHref`, `AnchorWithoutHref` and `AnchorFirstHrefOnly`. |
| `Gemtext.ConvertPieces` | wiki.go:108-111 | A page always ends with a footer flush. |
| `Gemtext.ConvertText` | wiki.go:108-111 | A page rendered from a document is never empty, because the final flush writes at least a newline. |
| `Gemtext.Render` | wiki.go:114-225 | The cursor loop over a sibling chain writes exactly the specified text and leaves exactly the specified lines pending in the shared footer. This includes skipping from a `ref` to the next `ref`, and ending the chain when there is none. |
| `Gemtext.FindClosingRef` | wiki.go:205-214 | From an opening `ref`, finds the next `ref` sibling, or the end of the chain. Every sibling in between is not a `ref`. The chain from the opening `ref` renders as the chain after the closing one, or as nothing when there is none. |
| `Gemtext.RenderOne` | wiki.go:119-219 | One non-`ref` node. Error, comment and doctype nodes write nothing. Text is written without newlines. A document renders its children. Any other kind writes `"unknown\n"`. Elements follow their tag's rule. |
| `Gemtext.RenderElement` | wiki.go:128-216 | `h1`–`h6` write the footer, reset it, and write the marker line. `b` writes `"*"`. Unknown tags write nothing. `li`, `p` and `a` follow their rules. |
| `Gemtext.RenderListItem` | wiki.go:171-177 | The children are rendered into a fresh string with the caller's footer, and written as `"* " + item + "\n"` unless the item is `""` or `"."`. |
| `Gemtext.RenderParagraph` | wiki.go:178-185 | The paragraph's children, framed as `"\n\n"`, body, `"\n"`, then the footer flush and reset. Nothing is written when there is no first child, or the first child is an empty text node. |
| `Gemtext.RenderAnchor` | wiki.go:186-202 | With a non-empty href, writes the flattened text and adds one link. Otherwise the anchor is transparent. |
| `Gemtext.ShortItemHasNoFlush` | wiki.go:175 | A list item rendering to `""` or `"."` contains no flush, so dropping it loses no flushed link. `Muted` keeps its `Anchor` pieces, with their text emptied. |
| `Gemtext.JoinParagraph` | wiki.go:180-184 | The text of a paragraph's pieces is `"\n\n"`, body, `"\n"`, footer text. |
| `Gemtext.HeadingText` | wiki.go:130-135 | The text of a heading is the footer text followed by the marker line. |
| `Gemtext.ItemText` | wiki.go:171-177 | The text of a list item is `"* " + item + "\n"` when the item is kept, and nothing otherwise. Its links stay pending either way. |
| `Gemtext.ParagraphText` | wiki.go:179-184 | The text of a paragraph with content is `"\n\n"`, the children's text, `"\n"`, and the flushed footer. Nothing is left pending. |
| `Gemtext.Convert` | wiki.go:79-111 | A parse failure gives `"could not parse: " + reason`. No document gives `"Could not render page"`. Otherwise the result is the rendered document followed by one final `footer.String()`. |
| `GemtextProperties.ConvertFlushesEveryLinkOnce` | wiki.go:108-111 | Over a whole page, every flush writes exactly the lines pending at that point. The lines written in footer blocks are exactly the lines the anchors added, each once, in the order added. |
| `GemtextProperties.ConvertFlushesAfterAnchor` | wiki.go:194-199 | Each anchor's link line is written by the first flush that follows the anchor's display text. No flush comes in between. |
| `GemtextProperties.ChainBalanced` | wiki.go:114-225 | Rendering any chain from any pending lines replays correctly. Heading and paragraph flushes write exactly the pending lines, and a reset follows each flush. |
| `GemtextProperties.NodeBalanced` | wiki.go:119-219 | The same, for one node. |
| `GemtextProperties.SkipBalanced` | wiki.go:205-214 | The same, for the siblings after an opening `ref`. |
| `GemtextProperties.BalancedConserves` | wiki.go:254-265 | When a replay is balanced, the pending lines followed by the added lines equal the flushed lines followed by those left pending. No line is lost, repeated or reordered. |
| `GemtextProperties.AnchorFlushedLater` | wiki.go:198 | In a balanced replay that ends empty, an anchor's line is written by the first flush after the anchor. |
| `GemtextProperties.PendingIsFlushed` | wiki.go:259-265 | In a balanced replay that ends empty, every pending line is written by the first flush. |
| `GemtextProperties.ListItemAddsNoFlush` | wiki.go:171-177 | A list item flushes nothing of its own. Links inside it stay pending for the next outer flush. |
| `TagRules.ChainAppend` | wiki.go:220-223 | A chain without `ref` siblings renders its parts one after another, each starting from what the previous part left pending. |
| `TagRules.SkipPast` | wiki.go:206-214 | Skipping after a `ref` passes over every non-`ref` sibling. |
| `TagRules.RefPairHidden` | wiki.go:205-223 | A pair of `ref` siblings hides everything between them. The chain renders as if the pair and its contents were absent. |
| `TagRules.RefUnclosedEndsChain` | wiki.go:205-221 | An opening `ref` with no closing one ends the chain. Nothing after it is written and no link is added. |
| `TagRules.RefExample` | wiki.go:205-223 | The chain `[Text "A", ref, Text "B", ref, Text "C"]` renders as `"AC"`. |
| `TagRules.TextChainVerbatim` | wiki.go:123-124 | A chain of text nodes writes their data in order, with every newline removed and nothing in its place, and adds no link. |
| `TagRules.HeadingMarkerLevel` | wiki.go:129-170 | `h1`, `h2` and `h3` get one, two and three `#`. `h4`, `h5` and `h6` also get three. |
| `TagRules.HeadingLine` | wiki.go:129-170 | A heading writes the footer text (`"\n"` plus the pending lines), then its marker, a space, its flattened text and `"\n"`. The footer is empty afterwards. |
| `TagRules.HeadingUsesOnlyText` | wiki.go:132-135 | Headings whose children flatten to the same text render the same. Their children are never rendered, so an anchor inside a heading adds no link. |
| `TagRules.ListItemLine` | wiki.go:171-177 | A list item writes `"* " + item + "\n"` exactly when its rendered children are neither `""` nor `"."`, compared untrimmed, and nothing otherwise. Pending links carry over. |
| `TagRules.EmptyParagraphSilent` | wiki.go:178-179 | A paragraph with no children, or with an empty first text node, writes nothing and leaves the footer as it was. |
| `TagRules.ParagraphFlushes` | wiki.go:178-185 | Any other paragraph writes `"\n\n"`, its children, `"\n"`, and the footer text. The footer is empty afterwards. |
| `TagRules.AnchorWithHref` | wiki.go:186-199 | With a non-empty href, the anchor writes its flattened text and adds exactly the line for the first `href` value. |
| `TagRules.AnchorWithoutHref` | wiki.go:186-202 | When the first `href` attribute is empty, or there is none, the anchor renders exactly as its children would. Later `href` attributes are never looked at. |
| `TagRules.HrefIsEmpty` | wiki.go:187-194 | When the first `href` attribute has an empty value, or there is none, the href is `""`. |
| `TagRules.AnchorFirstHrefOnly` | wiki.go:188-201 | An anchor with attributes `href=""` then `href="/x"` is transparent, because only the first `href` counts. |
| `TagRules.BoldMarker` | wiki.go:203-204 | `b` writes a lone `"*"` and nothing of its children. |
| `TagRules.UnknownElementDropped` | wiki.go:215 | Any other tag is dropped together with its whole subtree, text included. |
| `TagRules.OtherNodes` | wiki.go:119-122 | Error, comment and doctype nodes write nothing. A raw node writes `"unknown\n"` and its subtree is not visited. |
| `TagRules.DroppedItemKeepsLink` | wiki.go:171-177 | A list item holding only an anchor with text `"."` writes nothing, yet its link line stays pending. |
| `TagRules.TitleHeading` | wiki.go:129-135 | An `h1` with one newline-free text node writes the flushed footer, `"# "`, the title and a newline, and leaves nothing pending. |
| `TagRules.LinkSentence` | wiki.go:186-199 | Newline-free text, an anchor with a non-empty target and one newline-free text node, then newline-free text: the three texts joined, and one pending link line for the anchor. |
| `TagRules.PageBody` | wiki.go:129-185 | An `h1` with one newline-free text node, followed by a paragraph of newline-free texts whose first text is non-empty and whose one link has a non-empty target: the heading line, the paragraph's text, then the flushed link line, with nothing left pending. |
| `TagRules.WholePage` | wiki.go:108-111 | A whole page of that shape (same hypotheses) converts to the heading, the paragraph, its link line and the final newline of the empty end-of-page flush. |
| `TagRules.IntroPage` | wiki.go:108-111 | The page with title "Intro" and the sentence "See Wiki." linking to `/Wiki`, with path-segment escaping mapping `/Wiki` to `%2FWiki`, converts to `"\n# Intro\n\n\nSee Wiki.\n\n=> %2FWiki Wiki\n\n"`. |

Two details of the source that the model keeps:

- The list-item test compares the rendered item with `""` and `"."` as it is, with no trimming (wiki.go:175).
- The target is escaped when the link is added (wiki.go:255), not when the footer is flushed.

Behaviour the model makes visible: an anchor inside a list item that is dropped (its text is `""` or `"."`) still adds its link line. That line is written at the next flush even though the anchor's text never appears. In the pieces, this anchor becomes `Anchor("", line)`. `TagRules.DroppedItemKeepsLink` works this out on one item.

## Left out

- `getClient` and `search` (wiki.go:20-77) are not part of this model. They are network clients and JSON decoding, with a process-wide client cache.
- The wikitext parser (wiki.go:81-87) is external. Its outcome is an input to `Convert`: a failure reason, no document, or a root `Node`.
- The loop that unwraps the parser's result (wiki.go:95-102) is not modelled. It is a dynamic type switch. If the value is neither nil nor a node, the loop never terminates. `Convert` starts from the three outcomes above.
- `url.PathEscape` (wiki.go:255) is a library routine. It is the parameter `escape: string -> string`, given to the footer's constructor and to `Convert`. Every property holds for any escaping function, except `TagRules.IntroPage`. That lemma fixes only the one value `url.PathEscape("/Wiki") == "%2FWiki"`, since `/` is escaped in a path segment.
- The output builders (`buf`, and the temporary `t` of headings, list items and anchors) are only ever appended to. The footer's builder is the `lines` field, which `Reset` clears. Each method returns the text it writes, and its caller appends that text. Builder identity and aliasing are not modelled.
- The `println` diagnostics (wiki.go:89, wiki.go:100) are output side effects only.
- A parsed node of a kind other than document or element has no children in the model. Neither `render` nor `getText` ever visits such children.
- main.go is not part of this model. It holds the protocol server, TLS, tracing, routing, templates, `robots.txt` and timing.
