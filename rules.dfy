/** The per-node and per-tag rules of the conversion, and how "ref" brackets
    cut a sibling chain, stated over the specification `RenderChain`. */
module TagRules {
  import opened Html
  import opened LinkFooter
  import opened TextExtract
  import opened Gemtext

  /** No sibling of the chain is a "ref" element. */
  predicate NoRef(ns: seq<Node>) {
    forall i :: 0 <= i < |ns| ==> !IsRef(ns[i])
  }

  // ---------------------------------------------------------------------
  // Chains and "ref" brackets
  // ---------------------------------------------------------------------

  /** A chain without "ref" siblings renders its parts one after another,
      the second part starting from what the first left pending. */
  lemma {:induction false} ChainAppend(a: seq<Node>, b: seq<Node>, p: seq<string>, escape: string -> string)
    requires NoRef(a)
    ensures var first := RenderChain(a, p, escape);
            RenderChain(a + b, p, escape) == Then(first, RenderChain(b, first.pending, escape))
  {
    if a == [] {
      assert a + b == b;
    } else {
      assert (a + b)[0] == a[0] && (a + b)[1..] == a[1..] + b;
      var head := RenderNode(a[0], p, escape);
      ChainAppend(a[1..], b, head.pending, escape);
    }
  }

  /** Skipping passes over every non-"ref" sibling. */
  lemma {:induction false} SkipPast(mid: seq<Node>, rest: seq<Node>, p: seq<string>, escape: string -> string)
    requires NoRef(mid)
    ensures SkipRef(mid + rest, p, escape) == SkipRef(rest, p, escape)
  {
    if mid == [] {
      assert mid + rest == rest;
    } else {
      assert (mid + rest)[0] == mid[0] && (mid + rest)[1..] == mid[1..] + rest;
      SkipPast(mid[1..], rest, p, escape);
    }
  }

  /** A pair of "ref" siblings hides everything between them: the chain
      renders as if the pair and its contents were not there. */
  lemma RefPairHidden(pre: seq<Node>, open: Node, mid: seq<Node>, close: Node, rest: seq<Node>,
                      p: seq<string>, escape: string -> string)
    requires NoRef(pre) && NoRef(mid) && IsRef(open) && IsRef(close)
    ensures RenderChain(pre + [open] + mid + [close] + rest, p, escape) == RenderChain(pre + rest, p, escape)
  {
    var first := RenderChain(pre, p, escape);
    var bracketed := [open] + mid + [close] + rest;
    assert pre + [open] + mid + [close] + rest == pre + bracketed;
    ChainAppend(pre, bracketed, p, escape);
    ChainAppend(pre, rest, p, escape);
    assert bracketed[1..] == mid + ([close] + rest);
    SkipPast(mid, [close] + rest, first.pending, escape);
    assert ([close] + rest)[1..] == rest;
  }

  /** An opening "ref" with no closing one ends the chain: nothing after it
      is written and no link is added. */
  lemma RefUnclosedEndsChain(pre: seq<Node>, open: Node, rest: seq<Node>, p: seq<string>, escape: string -> string)
    requires NoRef(pre) && IsRef(open) && NoRef(rest)
    ensures RenderChain(pre + [open] + rest, p, escape) == RenderChain(pre, p, escape)
  {
    var first := RenderChain(pre, p, escape);
    assert pre + [open] + rest == pre + ([open] + rest);
    ChainAppend(pre, [open] + rest, p, escape);
    assert ([open] + rest)[1..] == rest + [];
    SkipPast(rest, [], first.pending, escape);
    assert first.pieces + [] == first.pieces;
  }

  /** The chain A, ref, B, ref, C renders as "AC". */
  lemma RefExample(attrs: seq<Attribute>, children: seq<Node>, p: seq<string>, escape: string -> string)
    ensures var ref := Element("ref", attrs, children);
            Join(RenderChain([Text("A"), ref, Text("B"), ref, Text("C")], p, escape).pieces) == "AC"
  {
    var ref := Element("ref", attrs, children);
    assert [Text("A"), ref, Text("B"), ref, Text("C")] == [Text("A")] + [ref] + [Text("B")] + [ref] + [Text("C")];
    RefPairHidden([Text("A")], ref, [Text("B")], ref, [Text("C")], p, escape);
    assert [Text("A")] + [Text("C")] == [Text("A"), Text("C")];
    assert RenderChain([Text("A"), Text("C")], p, escape).pieces == [Inline("A"), Inline("C")];
  }

  // ---------------------------------------------------------------------
  // Text
  // ---------------------------------------------------------------------

  /** A chain of text nodes writes their data, in order, with every newline
      removed and nothing put in its place; it adds no link. */
  lemma {:induction false} TextChainVerbatim(ns: seq<Node>, p: seq<string>, escape: string -> string)
    requires forall i :: 0 <= i < |ns| ==> ns[i].Text?
    ensures Join(RenderChain(ns, p, escape).pieces) == StripNewlines(TextData(ns))
    ensures RenderChain(ns, p, escape).pending == p
  {
    if ns != [] {
      TextChainVerbatim(ns[1..], p, escape);
      StripNewlinesAppend(ns[0].data, TextData(ns[1..]));
      JoinAppend([Inline(StripNewlines(ns[0].data))], RenderChain(ns[1..], p, escape).pieces);
    }
  }

  // ---------------------------------------------------------------------
  // Headings
  // ---------------------------------------------------------------------

  /** Levels 1 to 3 get that many '#'; levels 4 to 6 get three. */
  lemma HeadingMarkerLevel(tag: string)
    requires IsHeading(tag)
    ensures var level := if tag == "h1" then 1 else if tag == "h2" then 2 else 3;
            |HeadingMarker(tag)| == level && forall k :: 0 <= k < level ==> HeadingMarker(tag)[k] == '#'
  {
  }

  /** A heading flushes the pending links, then writes one line: its marker,
      a space, its flattened text. The footer is empty afterwards. */
  lemma HeadingLine(tag: string, attrs: seq<Attribute>, children: seq<Node>, p: seq<string>, escape: string -> string)
    requires IsHeading(tag)
    ensures var r := RenderNode(Element(tag, attrs, children), p, escape);
            Join(r.pieces) == FooterText(p) + HeadingMarker(tag) + " " + FlattenSeq(children) + "\n" &&
            r.pending == []
  {
    HeadingText(Element(tag, attrs, children), p);
  }

  /** A heading's children are never rendered: headings whose children
      flatten to the same text render the same, whatever their markup (an
      anchor inside a heading adds no link). */
  lemma HeadingUsesOnlyText(tag: string, a1: seq<Attribute>, c1: seq<Node>, a2: seq<Attribute>, c2: seq<Node>,
                            p: seq<string>, escape: string -> string)
    requires IsHeading(tag) && FlattenSeq(c1) == FlattenSeq(c2)
    ensures RenderNode(Element(tag, a1, c1), p, escape) == RenderNode(Element(tag, a2, c2), p, escape)
  {
  }

  // ---------------------------------------------------------------------
  // List items
  // ---------------------------------------------------------------------

  /** A list item writes "* ", its rendered children and a newline when what
      they render is neither empty nor exactly "."; otherwise nothing. It
      never flushes the footer itself: what its children leave pending stays
      pending. */
  lemma ListItemLine(attrs: seq<Attribute>, children: seq<Node>, p: seq<string>, escape: string -> string)
    ensures var item := RenderChain(children, p, escape);
            var r := RenderNode(Element("li", attrs, children), p, escape);
            Join(r.pieces) == (if Join(item.pieces) != "" && Join(item.pieces) != "."
                               then "* " + Join(item.pieces) + "\n" else "") &&
            r.pending == item.pending
  {
    var item := RenderChain(children, p, escape);
    if ItemKept(Join(item.pieces)) {
      JoinAppend([Inline("* ")] + item.pieces, [Inline("\n")]);
      JoinAppend([Inline("* ")], item.pieces);
    } else {
      ShortItemHasNoFlush(item.pieces);
    }
  }

  // ---------------------------------------------------------------------
  // Paragraphs
  // ---------------------------------------------------------------------

  /** A paragraph with no children, or whose first child is an empty text
      node, writes nothing and leaves the footer as it was. */
  lemma EmptyParagraphSilent(attrs: seq<Attribute>, children: seq<Node>, rest: seq<Node>,
                             p: seq<string>, escape: string -> string)
    requires children == [] || (children[0].Text? && children[0].data == "")
    ensures RenderChain([Element("p", attrs, children)] + rest, p, escape) == RenderChain(rest, p, escape)
  {
    assert ([Element("p", attrs, children)] + rest)[1..] == rest;
    assert RenderNode(Element("p", attrs, children), p, escape) == Rendered([], p);
  }

  /** Any other paragraph writes a blank line, its rendered children, a
      newline and the flushed footer; the footer is empty afterwards. */
  lemma ParagraphFlushes(attrs: seq<Attribute>, children: seq<Node>, p: seq<string>, escape: string -> string)
    requires children != [] && !(children[0].Text? && children[0].data == "")
    ensures var body := RenderChain(children, p, escape);
            var r := RenderNode(Element("p", attrs, children), p, escape);
            Join(r.pieces) == "\n\n" + Join(body.pieces) + "\n" + FooterText(body.pending) &&
            r.pending == []
  {
    var body := RenderChain(children, p, escape);
    JoinParagraph(body.pieces, body.pending);
  }

  // ---------------------------------------------------------------------
  // Anchors, bold, dropped and unknown nodes
  // ---------------------------------------------------------------------

  /** An anchor with a non-empty href writes its flattened text and adds
      exactly one link line, for the first "href" attribute's value. */
  lemma AnchorWithHref(attrs: seq<Attribute>, children: seq<Node>, p: seq<string>, escape: string -> string)
    requires Href(attrs) != ""
    ensures var r := RenderNode(Element("a", attrs, children), p, escape);
            Join(r.pieces) == FlattenSeq(children) &&
            r.pending == p + ["=> " + escape(Href(attrs)) + " " + FlattenSeq(children) + "\n"]
  {
  }

  /** An anchor whose first "href" attribute is empty, or that has none, is
      transparent; a later non-empty "href" is never looked at. */
  lemma AnchorWithoutHref(attrs: seq<Attribute>, children: seq<Node>, p: seq<string>, escape: string -> string)
    requires forall k :: (0 <= k < |attrs| && attrs[k].key == "href" &&
                          forall j :: 0 <= j < k ==> attrs[j].key != "href") ==> attrs[k].val == ""
    ensures RenderNode(Element("a", attrs, children), p, escape) == RenderChain(children, p, escape)
  {
    HrefIsEmpty(attrs);
  }

  /** The lookup is empty when the first "href" attribute, if any, has an
      empty value. */
  lemma {:induction false} HrefIsEmpty(attrs: seq<Attribute>)
    requires forall k :: (0 <= k < |attrs| && attrs[k].key == "href" &&
                          forall j :: 0 <= j < k ==> attrs[j].key != "href") ==> attrs[k].val == ""
    ensures Href(attrs) == ""
  {
    if attrs != [] && attrs[0].key != "href" {
      var tail := attrs[1..];
      forall k | 0 <= k < |tail| && tail[k].key == "href" && (forall j :: 0 <= j < k ==> tail[j].key != "href")
        ensures tail[k].val == ""
      {
        assert tail[k] == attrs[k + 1];
        assert forall j :: 0 < j < k + 1 ==> attrs[j] == tail[j - 1];
      }
      HrefIsEmpty(tail);
    }
  }

  /** Only the first "href" counts: an empty one followed by a non-empty one
      leaves the anchor transparent. */
  lemma AnchorFirstHrefOnly(children: seq<Node>, p: seq<string>, escape: string -> string)
    ensures var attrs := [Attribute("href", ""), Attribute("href", "/x")];
            RenderNode(Element("a", attrs, children), p, escape) == RenderChain(children, p, escape)
  {
    var attrs := [Attribute("href", ""), Attribute("href", "/x")];
    assert attrs[0].key == "href" && attrs[0].val == "";
    AnchorWithoutHref(attrs, children, p, escape);
  }

  /** Bold writes a lone "*", with no closing marker, and drops its children. */
  lemma BoldMarker(attrs: seq<Attribute>, children: seq<Node>, p: seq<string>, escape: string -> string)
    ensures RenderNode(Element("b", attrs, children), p, escape) == Rendered([Inline("*")], p)
  {
  }

  /** An element with any other tag is dropped with its whole subtree. */
  lemma UnknownElementDropped(tag: string, attrs: seq<Attribute>, children: seq<Node>, rest: seq<Node>,
                              p: seq<string>, escape: string -> string)
    requires !IsHeading(tag) && tag != "li" && tag != "p" && tag != "a" && tag != "b" && tag != "ref"
    ensures RenderChain([Element(tag, attrs, children)] + rest, p, escape) == RenderChain(rest, p, escape)
  {
    assert ([Element(tag, attrs, children)] + rest)[1..] == rest;
  }

  /** Error, comment and doctype nodes write nothing; any other kind of node
      writes "unknown" on a line of its own. */
  lemma OtherNodes(n: Node, p: seq<string>, escape: string -> string)
    requires n.Error? || n.Comment? || n.Doctype? || n.Raw?
    ensures RenderNode(n, p, escape) == Rendered(if n.Raw? then [Inline("unknown\n")] else [], p)
  {
  }

  // ---------------------------------------------------------------------
  // Worked examples
  // ---------------------------------------------------------------------

  /** A list item whose only content is an anchor with text "." is dropped,
      yet the anchor's link line stays pending for the next flush. */
  lemma DroppedItemKeepsLink(escape: string -> string)
    ensures var a := Element("a", [Attribute("href", "/x")], [Text(".")]);
            var r := RenderNode(Element("li", [], [a]), [], escape);
            Join(r.pieces) == "" && r.pending == [LinkLine(escape, ".", "/x")]
  {
    var a := Element("a", [Attribute("href", "/x")], [Text(".")]);
    var line := LinkLine(escape, ".", "/x");
    assert Href(a.attrs) == "/x";
    assert StripNewlines(".") == ".";
    assert Flatten(a) == ".";
    assert RenderChain([a], [], escape) == Rendered([Anchor(".", line)], [line]);
    assert Join([Anchor(".", line)]) == ".";
    assert Muted([Anchor(".", line)]) == [Anchor("", line)];
    assert Join([Anchor("", line)]) == "";
  }

  /** A heading holding one text node with no newline. */
  lemma TitleHeading(title: string, p: seq<string>, escape: string -> string)
    requires '\n' !in title
    ensures var r := RenderNode(Element("h1", [], [Text(title)]), p, escape);
            Join(r.pieces) == FooterText(p) + "# " + title + "\n" && r.pending == []
  {
    HeadingLine("h1", [], [Text(title)], p, escape);
    assert FlattenSeq([Text(title)]) == title + "";
    assert title + "" == title;
    assert FooterText(p) + "#" + " " + title + "\n" == FooterText(p) + "# " + title + "\n";
  }

  /** A chain of text, an anchor holding one text node, and text again. */
  lemma LinkSentence(before: string, name: string, after: string, target: string, escape: string -> string)
    requires '\n' !in before && '\n' !in name && '\n' !in after && target != ""
    ensures var link := Element("a", [Attribute("href", target)], [Text(name)]);
            var body := RenderChain([Text(before), link, Text(after)], [], escape);
            Join(body.pieces) == before + name + after && body.pending == [LinkLine(escape, name, target)]
  {
    var link := Element("a", [Attribute("href", target)], [Text(name)]);
    var line := LinkLine(escape, name, target);
    assert Join([Inline(after)]) == after + "" && after + "" == after;
    assert Join([Anchor(name, line)]) == name + "" && name + "" == name;
    assert Join([Inline(before)]) == before + "" && before + "" == before;
    assert Href(link.attrs) == target;
    assert FlattenSeq([Text(name)]) == name + "" && name + "" == name;
    assert RenderNode(link, [], escape) == Rendered([Anchor(name, line)], [line]);
    var tail := [Text(after)];
    assert RenderChain(tail, [line], escape) == Rendered([Inline(after)], [line]);
    var mid := [link] + tail;
    assert mid[1..] == tail;
    assert RenderChain(mid, [], escape) == Rendered([Anchor(name, line)] + [Inline(after)], [line]);
    var all := [Text(before)] + mid;
    assert all == [Text(before), link, Text(after)];
    assert all[1..] == mid;
    assert RenderChain(all, [], escape) == Rendered([Inline(before)] + ([Anchor(name, line)] + [Inline(after)]), [line]);
    JoinAppend([Anchor(name, line)], [Inline(after)]);
    JoinAppend([Inline(before)], [Anchor(name, line)] + [Inline(after)]);
  }

  /** The document's chain of `WholePage`: the heading, then the paragraph;
      the paragraph's flush leaves nothing pending. */
  lemma PageBody(title: string, before: string, name: string, after: string, target: string,
                 escape: string -> string)
    requires '\n' !in title && '\n' !in before && '\n' !in name && '\n' !in after
    requires before != "" && target != ""
    ensures var link := Element("a", [Attribute("href", target)], [Text(name)]);
            var chain := RenderChain([Element("h1", [], [Text(title)]),
                                      Element("p", [], [Text(before), link, Text(after)])], [], escape);
            Join(chain.pieces) ==
              ("\n" + "# " + title + "\n") + ("\n\n" + (before + name + after) + "\n" + ("\n" + LinkLine(escape, name, target))) &&
            chain.pending == []
  {
    var link := Element("a", [Attribute("href", target)], [Text(name)]);
    var kids := [Text(before), link, Text(after)];
    var h := Element("h1", [], [Text(title)]);
    var para := Element("p", [], kids);
    var line := LinkLine(escape, name, target);
    TitleHeading(title, [], escape);
    assert FooterText([]) == "\n" + "" && "\n" + "" == "\n";
    var hr := RenderNode(h, [], escape);
    LinkSentence(before, name, after, target, escape);
    ParagraphFlushes([], kids, [], escape);
    assert [line][1..] == [];
    assert Concat([line]) == line + "" && line + "" == line;
    var pr := RenderNode(para, [], escape);
    assert [h, para][1..] == [para] && [para][1..] == [];
    assert RenderChain([para], [], escape) == Rendered(pr.pieces + [], []);
    assert pr.pieces + [] == pr.pieces;
    assert RenderChain([h, para], [], escape) == Rendered(hr.pieces + pr.pieces, []);
    JoinAppend(hr.pieces, pr.pieces);
  }

  /** A whole page: a heading, then a paragraph holding one link. The
      heading's flush is empty, the paragraph's flush writes the link line,
      and the final flush writes only a newline. */
  lemma WholePage(title: string, before: string, name: string, after: string, target: string,
                  escape: string -> string)
    requires '\n' !in title && '\n' !in before && '\n' !in name && '\n' !in after
    requires before != "" && target != ""
    ensures var link := Element("a", [Attribute("href", target)], [Text(name)]);
            var doc := Document([Element("h1", [], [Text(title)]),
                                 Element("p", [], [Text(before), link, Text(after)])]);
            ConvertText(doc, escape) ==
              ("\n" + "# " + title + "\n") + ("\n\n" + (before + name + after) + "\n") +
              ("\n" + LinkLine(escape, name, target)) + "\n"
  {
    var link := Element("a", [Attribute("href", target)], [Text(name)]);
    var ns := [Element("h1", [], [Text(title)]), Element("p", [], [Text(before), link, Text(after)])];
    PageBody(title, before, name, after, target, escape);
    var chain := RenderChain(ns, [], escape);
    var doc := Document(ns);
    assert [doc][1..] == [];
    assert !IsRef(doc) && RenderNode(doc, [], escape) == chain;
    assert RenderChain([doc][1..], chain.pending, escape) == Rendered([], []);
    var r := RenderChain([doc], [], escape);
    assert r == Then(chain, Rendered([], []));
    assert r == Rendered(chain.pieces + [], []);
    assert chain.pieces + [] == chain.pieces;
    JoinAppend(r.pieces, [Links([])]);
    assert Join([Links([])]) == "\n" + "" + "";
    assert "\n" + "" + "" == "\n";
    var head := "\n" + "# " + title + "\n";
    var para := "\n\n" + (before + name + after) + "\n";
    var flush := "\n" + LinkLine(escape, name, target);
    assert head + (para + flush) == head + para + flush;
  }

  /** `WholePage` on one page: a title "Intro" and the sentence "See Wiki."
      linking to "/Wiki". Path-segment escaping turns the "/" into "%2F".
      The strings are parameters fixed by the requires clauses, rather than
      literal arguments, so that Dafny does not unfold every function on them. */
  lemma IntroPage(title: string, before: string, name: string, after: string, target: string,
                  escape: string -> string)
    requires title == "Intro" && before == "See " && name == "Wiki" && after == "."
    requires target == "/Wiki" && escape(target) == "%2FWiki"
    ensures var link := Element("a", [Attribute("href", target)], [Text(name)]);
            var doc := Document([Element("h1", [], [Text(title)]),
                                 Element("p", [], [Text(before), link, Text(after)])]);
            ConvertText(doc, escape) == "\n# Intro\n" + "\n\nSee Wiki.\n" + "\n=> %2FWiki Wiki\n" + "\n"
  {
    assert '\n' !in title && '\n' !in before && '\n' !in name && '\n' !in after;
    assert "\n" + "# " + title + "\n" == "\n# Intro\n";
    assert before + name + after == "See Wiki.";
    assert "\n\n" + (before + name + after) + "\n" == "\n\nSee Wiki.\n";
    assert LinkLine(escape, name, target) == "=> %2FWiki Wiki\n";
    assert "\n" + LinkLine(escape, name, target) == "\n=> %2FWiki Wiki\n";
    WholePage(title, before, name, after, target, escape);
  }
}
