/** The conversion engine: walks a sibling chain of the parsed document and
    writes the line-oriented text, deferring link targets to the footer.

    `RenderChain` is the specification. It describes the output as a
    sequence of pieces: inline text, the display text of an anchor together
    with the link line it registered, and flushed footer blocks. The text
    written is `Join` of the pieces. `Render` is the cursor loop over the
    chain, proved to write exactly that text and to leave exactly the
    specified lines pending in the shared footer. */
module Gemtext {
  import opened Html
  import opened LinkFooter
  import opened TextExtract

  /** One stretch of output. `Anchor` is the display text of a link whose
      line was added to the footer at that point; `Links` is a footer flush. */
  datatype Piece =
    | Inline(s: string)
    | Anchor(name: string, line: string)
    | Links(lines: seq<string>)

  /** The pieces a chain writes and the footer lines pending afterwards. */
  datatype Rendered = Rendered(pieces: seq<Piece>, pending: seq<string>)

  function PieceText(p: Piece): string {
    match p
    case Inline(s) => s
    case Anchor(name, _) => name
    case Links(lines) => FooterText(lines)
  }

  /** The text the pieces stand for. */
  function Join(ps: seq<Piece>): string {
    if ps == [] then "" else PieceText(ps[0]) + Join(ps[1..])
  }

  lemma {:induction false} JoinAppend(a: seq<Piece>, b: seq<Piece>)
    ensures Join(a + b) == Join(a) + Join(b)
  {
    if a == [] {
      assert a + b == b;
    } else {
      assert (a + b)[0] == a[0] && (a + b)[1..] == a[1..] + b;
      JoinAppend(a[1..], b);
    }
  }

  lemma JoinParagraph(ps: seq<Piece>, pending: seq<string>)
    ensures Join([Inline("\n\n")] + ps + [Inline("\n"), Links(pending)]) ==
            "\n\n" + Join(ps) + "\n" + FooterText(pending)
  {
    assert Join([Links(pending)]) == FooterText(pending);
    assert Join([Inline("\n"), Links(pending)]) == "\n" + FooterText(pending);
    JoinAppend([Inline("\n\n")] + ps, [Inline("\n"), Links(pending)]);
    JoinAppend([Inline("\n\n")], ps);
  }

  /** A flushed footer block always writes a newline, so a chain that writes
      nothing or only "." flushed nothing; its anchors wrote no text. */
  lemma {:induction false} ShortItemHasNoFlush(ps: seq<Piece>)
    requires Join(ps) == "" || Join(ps) == "."
    ensures forall i :: 0 <= i < |ps| ==> !ps[i].Links?
    ensures Join(Muted(ps)) == ""
  {
    if ps != [] {
      var head := PieceText(ps[0]);
      var tail := Join(ps[1..]);
      assert Join(ps) == head + tail;
      FlushStartsWithNewline(ps[0]);
      assert tail == Join(ps)[|head|..];
      ShortItemHasNoFlush(ps[1..]);
    }
  }

  lemma FlushStartsWithNewline(p: Piece)
    ensures p.Links? ==> |PieceText(p)| > 0 && PieceText(p)[0] == '\n'
  {
  }

  /** The pieces of a list item that is dropped: its text is discarded, but
      the links its anchors added stay registered, with no text. */
  function Muted(ps: seq<Piece>): seq<Piece> {
    if ps == [] then []
    else
      match ps[0]
      case Inline(_) => Muted(ps[1..])
      case Anchor(_, line) => [Anchor("", line)] + Muted(ps[1..])
      case Links(lines) => [Links(lines)] + Muted(ps[1..])
  }

  predicate IsHeading(tag: string) {
    tag == "h1" || tag == "h2" || tag == "h3" || tag == "h4" || tag == "h5" || tag == "h6"
  }

  /** Levels 1 to 3 get that many '#'; levels 4 to 6 get three. */
  function HeadingMarker(tag: string): (r: string)
    requires IsHeading(tag)
    ensures 1 <= |r| <= 3 && forall k :: 0 <= k < |r| ==> r[k] == '#'
  {
    if tag == "h1" then "#" else if tag == "h2" then "##" else "###"
  }

  /** A paragraph writes anything only when it has a first child that is not
      an empty text node. */
  predicate ParagraphHasContent(children: seq<Node>)
    ensures ParagraphHasContent(children) ==> children != []
    ensures children != [] && !children[0].Text? ==> ParagraphHasContent(children)
  {
    children != [] && !(children[0].Text? && children[0].data == "")
  }

  /** A rendered list item is written unless it is empty or exactly ".". */
  predicate ItemKept(item: string)
    ensures ItemKept(item) ==> |item| > 0
    ensures |item| > 1 ==> ItemKept(item)
  {
    item != "" && item != "."
  }

  /** `a` followed by `b`, where `b` was rendered from `a`'s pending lines. */
  function Then(a: Rendered, b: Rendered): Rendered {
    Rendered(a.pieces + b.pieces, b.pending)
  }

  /** The output of a sibling chain, starting with `pending` footer lines. */
  function RenderChain(ns: seq<Node>, pending: seq<string>, escape: string -> string): Rendered
    decreases ns, 0
  {
    if ns == [] then Rendered([], pending)
    else if IsRef(ns[0]) then SkipRef(ns[1..], pending, escape)
    else
      var head := RenderNode(ns[0], pending, escape);
      Then(head, RenderChain(ns[1..], head.pending, escape))
  }

  /** After an opening "ref": drop siblings up to and including the next
      "ref" element, then go on; with no closing "ref" the chain ends. */
  function SkipRef(ns: seq<Node>, pending: seq<string>, escape: string -> string): Rendered
    decreases ns, 0
  {
    if ns == [] then Rendered([], pending)
    else if IsRef(ns[0]) then RenderChain(ns[1..], pending, escape)
    else SkipRef(ns[1..], pending, escape)
  }

  /** The output of one node other than "ref" (its siblings excluded). */
  function RenderNode(n: Node, pending: seq<string>, escape: string -> string): Rendered
    requires !IsRef(n)
    decreases n, 1
  {
    match n
    case Error => Rendered([], pending)
    case Comment(_) => Rendered([], pending)
    case Doctype(_) => Rendered([], pending)
    case Text(data) => Rendered([Inline(StripNewlines(data))], pending)
    case Document(children) => RenderChain(children, pending, escape)
    case Raw(_) => Rendered([Inline("unknown\n")], pending)
    case Element(tag, attrs, children) =>
      if IsHeading(tag) then HeadingOutput(n, pending)
      else if tag == "li" then ItemOutput(children, pending, escape)
      else if tag == "p" then ParagraphOutput(children, pending, escape)
      else if tag == "a" then AnchorOutput(n, pending, escape)
      else if tag == "b" then Rendered([Inline("*")], pending)
      else Rendered([], pending)
  }

  /** A heading: the pending links are flushed, then one marker line with
      the heading's flattened text; the footer is left empty. */
  function HeadingOutput(n: Node, pending: seq<string>): (r: Rendered)
    requires n.Element? && IsHeading(n.tag)
    ensures r.pending == [] && |r.pieces| > 0 && r.pieces[0] == Links(pending)
  {
    Rendered([Links(pending), Inline(HeadingMarker(n.tag) + " " + Flatten(n) + "\n")], [])
  }

  /** A list item: its children rendered with the shared footer, written as
      a bullet line unless they render to "" or "." (then only the links
      they added remain, as anchors without text). */
  function ItemOutput(children: seq<Node>, pending: seq<string>, escape: string -> string): Rendered
    decreases children, 1
  {
    var item := RenderChain(children, pending, escape);
    if ItemKept(Join(item.pieces)) then
      Rendered([Inline("* ")] + item.pieces + [Inline("\n")], item.pending)
    else
      Rendered(Muted(item.pieces), item.pending)
  }

  /** A paragraph: nothing unless it has content; otherwise a blank line,
      its children, a newline and a footer flush. */
  function ParagraphOutput(children: seq<Node>, pending: seq<string>, escape: string -> string): Rendered
    decreases children, 1
  {
    if ParagraphHasContent(children) then
      var body := RenderChain(children, pending, escape);
      Rendered([Inline("\n\n")] + body.pieces + [Inline("\n"), Links(body.pending)], [])
    else
      Rendered([], pending)
  }

  /** An anchor: with a non-empty href, its flattened text and one added
      link line; otherwise it is transparent. */
  function AnchorOutput(n: Node, pending: seq<string>, escape: string -> string): Rendered
    requires n.Element?
    decreases n, 0
  {
    var href := Href(n.attrs);
    if href != "" then
      var name := Flatten(n);
      var line := LinkLine(escape, name, href);
      Rendered([Anchor(name, line)], pending + [line])
    else
      RenderChain(n.children, pending, escape)
  }

  /** The pieces of a whole page: the document, then the final footer flush. */
  function ConvertPieces(doc: Node, escape: string -> string): (ps: seq<Piece>)
    ensures |ps| > 0 && ps[|ps| - 1].Links?
  {
    var r := RenderChain([doc], [], escape);
    r.pieces + [Links(r.pending)]
  }

  /** The page the converter returns for a document. */
  function ConvertText(doc: Node, escape: string -> string): (page: string)
    ensures |page| > 0
  {
    var r := RenderChain([doc], [], escape);
    JoinAppend(r.pieces, [Links(r.pending)]);
    Join(ConvertPieces(doc, escape))
  }

  /** The text of a heading: the flushed footer, then its marker line. */
  lemma HeadingText(n: Node, pending: seq<string>)
    requires n.Element? && IsHeading(n.tag)
    ensures Join(HeadingOutput(n, pending).pieces) == FooterText(pending) + HeadingMarker(n.tag) + " " + Flatten(n) + "\n"
  {
    var line := HeadingMarker(n.tag) + " " + Flatten(n) + "\n";
    assert Join([Inline(line)]) == line;
  }

  /** The text of a list item: a bullet line around its children's text
      when it is kept, nothing otherwise; its links stay pending. */
  lemma ItemText(children: seq<Node>, pending: seq<string>, escape: string -> string, item: string)
    requires item == Join(RenderChain(children, pending, escape).pieces)
    ensures Join(ItemOutput(children, pending, escape).pieces) == if ItemKept(item) then "* " + item + "\n" else ""
    ensures ItemOutput(children, pending, escape).pending == RenderChain(children, pending, escape).pending
  {
    var body := RenderChain(children, pending, escape).pieces;
    if ItemKept(item) {
      assert Join([Inline("* ")]) == "* " && Join([Inline("\n")]) == "\n";
      JoinAppend([Inline("* ")] + body, [Inline("\n")]);
      JoinAppend([Inline("* ")], body);
    } else {
      ShortItemHasNoFlush(body);
    }
  }

  /** The text of a paragraph with content: a blank line, the children's
      text, a newline and the flushed footer; nothing is left pending. */
  lemma ParagraphText(children: seq<Node>, pending: seq<string>, escape: string -> string, inner: string, flush: string)
    requires ParagraphHasContent(children)
    requires inner == Join(RenderChain(children, pending, escape).pieces)
    requires flush == FooterText(RenderChain(children, pending, escape).pending)
    ensures Join(ParagraphOutput(children, pending, escape).pieces) == "\n\n" + inner + "\n" + flush
    ensures ParagraphOutput(children, pending, escape).pending == []
  {
    var body := RenderChain(children, pending, escape);
    JoinParagraph(body.pieces, body.pending);
  }

  /** One step of the chain: a node other than "ref", then its siblings. */
  lemma RenderChainStep(ns: seq<Node>, i: nat, pending: seq<string>, escape: string -> string)
    requires i < |ns| && !IsRef(ns[i])
    ensures var head := RenderNode(ns[i], pending, escape);
            var rest := RenderChain(ns[i + 1..], head.pending, escape);
            Join(RenderChain(ns[i..], pending, escape).pieces) == Join(head.pieces) + Join(rest.pieces) &&
            RenderChain(ns[i..], pending, escape).pending == rest.pending
  {
    assert ns[i..][0] == ns[i] && ns[i..][1..] == ns[i + 1..];
    var head := RenderNode(ns[i], pending, escape);
    JoinAppend(head.pieces, RenderChain(ns[i + 1..], head.pending, escape).pieces);
  }

  /** The loop's account of a chain stays right across one node other than
      "ref": what is written plus what the rest renders is the whole. */
  lemma ChainStepText(ns: seq<Node>, i: nat, pending: seq<string>, escape: string -> string,
                      whole: Rendered, out: string, w: string)
    requires i < |ns| && !IsRef(ns[i])
    requires Join(whole.pieces) == out + Join(RenderChain(ns[i..], pending, escape).pieces)
    requires whole.pending == RenderChain(ns[i..], pending, escape).pending
    requires w == Join(RenderNode(ns[i], pending, escape).pieces)
    ensures var next := RenderNode(ns[i], pending, escape).pending;
            Join(whole.pieces) == out + w + Join(RenderChain(ns[i + 1..], next, escape).pieces) &&
            whole.pending == RenderChain(ns[i + 1..], next, escape).pending
  {
    RenderChainStep(ns, i, pending, escape);
  }

  /** An opening "ref" at `i` hands the rest of the chain to skipping. */
  lemma SkipStart(ns: seq<Node>, i: nat, pending: seq<string>, escape: string -> string)
    requires i < |ns| && IsRef(ns[i])
    ensures RenderChain(ns[i..], pending, escape) == SkipRef(ns[i + 1..], pending, escape)
  {
    assert ns[i..][0] == ns[i] && ns[i..][1..] == ns[i + 1..];
  }

  /** Skipping passes a non-"ref" sibling and stops after a "ref" one. */
  lemma SkipStep(ns: seq<Node>, i: nat, pending: seq<string>, escape: string -> string)
    requires i < |ns|
    ensures SkipRef(ns[i..], pending, escape) ==
            if IsRef(ns[i]) then RenderChain(ns[i + 1..], pending, escape) else SkipRef(ns[i + 1..], pending, escape)
  {
    assert ns[i..][0] == ns[i] && ns[i..][1..] == ns[i + 1..];
  }

  /** Finds the "ref" that closes the one at `i`, or the end of the chain;
      the chain from `i` renders as the chain after that closing "ref". */
  method FindClosingRef(ns: seq<Node>, i: nat, ghost pending: seq<string>, ghost escape: string -> string)
    returns (close: nat)
    requires i < |ns| && IsRef(ns[i])
    ensures i < close <= |ns|
    ensures close < |ns| ==> IsRef(ns[close])
    ensures forall k :: i < k < close ==> !IsRef(ns[k])
    ensures close == |ns| ==> RenderChain(ns[i..], pending, escape) == Rendered([], pending)
    ensures close < |ns| ==> RenderChain(ns[i..], pending, escape) == RenderChain(ns[close + 1..], pending, escape)
  {
    SkipStart(ns, i, pending, escape);
    close := i + 1;
    while close < |ns| && !IsRef(ns[close])
      invariant i < close <= |ns|
      invariant forall k :: i < k < close ==> !IsRef(ns[k])
      invariant RenderChain(ns[i..], pending, escape) == SkipRef(ns[close..], pending, escape)
    {
      SkipStep(ns, close, pending, escape);
      close := close + 1;
    }
    if close < |ns| {
      SkipStep(ns, close, pending, escape);
    } else {
      assert ns[close..] == [];
    }
  }

  /** Walks the chain with a cursor, writing each node's output and keeping
      the pending links in `footer`. Returns what it writes. */
  method Render(ns: seq<Node>, footer: Footer) returns (out: string)
    modifies footer
    ensures out == Join(RenderChain(ns, old(footer.lines), footer.escape).pieces)
    ensures footer.lines == RenderChain(ns, old(footer.lines), footer.escape).pending
    decreases ns
  {
    ghost var esc := footer.escape;
    ghost var pending := footer.lines;
    ghost var whole := RenderChain(ns, pending, esc);
    out := "";
    var i := 0;
    assert ns[i..] == ns && out + Join(whole.pieces) == Join(whole.pieces);
    while i < |ns|
      invariant 0 <= i <= |ns|
      invariant footer.lines == pending
      invariant Join(whole.pieces) == out + Join(RenderChain(ns[i..], pending, esc).pieces)
      invariant whole.pending == RenderChain(ns[i..], pending, esc).pending
    {
      var node := ns[i];
      if IsRef(node) {
        var close := FindClosingRef(ns, i, pending, esc);
        if close == |ns| {
          assert out + Join([]) == out;
          break;
        }
        i := close + 1;
      } else {
        var w := RenderOne(node, footer);
        ChainStepText(ns, i, pending, esc, whole, out, w);
        out := out + w;
        pending := footer.lines;
        i := i + 1;
      }
    }
    if i == |ns| {
      assert ns[i..] == [] && out + Join([]) == out;
    }
  }

  /** The body of the cursor loop for one node other than "ref": the
      per-kind, per-tag rules. Returns what it writes. */
  method RenderOne(node: Node, footer: Footer) returns (out: string)
    requires !IsRef(node)
    modifies footer
    ensures out == Join(RenderNode(node, old(footer.lines), footer.escape).pieces)
    ensures footer.lines == RenderNode(node, old(footer.lines), footer.escape).pending
    decreases node, 2
  {
    out := "";
    match node {
      case Error =>
      case Comment(_) =>
      case Doctype(_) =>
      case Text(data) =>
        out := StripNewlines(data);
      case Document(children) =>
        out := Render(children, footer);
      case Raw(_) =>
        out := "unknown\n";
      case Element(_, _, _) =>
        out := RenderElement(node, footer);
    }
  }

  /** The per-tag rules for an element other than "ref". */
  method RenderElement(node: Node, footer: Footer) returns (out: string)
    requires node.Element? && !IsRef(node)
    modifies footer
    ensures out == Join(RenderNode(node, old(footer.lines), footer.escape).pieces)
    ensures footer.lines == RenderNode(node, old(footer.lines), footer.escape).pending
    decreases node, 1
  {
    ghost var before := footer.lines;
    ghost var esc := footer.escape;
    var tag := node.tag;
    out := "";
    if IsHeading(tag) {
      var flush := footer.String();
      footer.Reset();
      var name := GetText(node);
      out := flush + HeadingMarker(tag) + " " + name + "\n";
      HeadingText(node, before);
      assert RenderNode(node, before, esc) == HeadingOutput(node, before);
    } else if tag == "li" {
      out := RenderListItem(node, footer);
      assert RenderNode(node, before, esc) == ItemOutput(node.children, before, esc);
    } else if tag == "p" {
      out := RenderParagraph(node, footer);
      assert RenderNode(node, before, esc) == ParagraphOutput(node.children, before, esc);
    } else if tag == "a" {
      out := RenderAnchor(node, footer);
      assert RenderNode(node, before, esc) == AnchorOutput(node, before, esc);
    } else if tag == "b" {
      out := "*";
      assert Join([Inline("*")]) == "*";
      assert RenderNode(node, before, esc) == Rendered([Inline("*")], before);
    } else {
      assert RenderNode(node, before, esc) == Rendered([], before);
    }
  }

  /** A list item: its children are rendered on their own, sharing the
      footer, and written as a bullet line unless empty or exactly ".". */
  method RenderListItem(node: Node, footer: Footer) returns (out: string)
    requires node.Element? && node.tag == "li"
    modifies footer
    ensures out == Join(ItemOutput(node.children, old(footer.lines), footer.escape).pieces)
    ensures footer.lines == ItemOutput(node.children, old(footer.lines), footer.escape).pending
    decreases node, 0
  {
    ghost var before := footer.lines;
    var item := Render(node.children, footer);
    ItemText(node.children, before, footer.escape, item);
    if item != "" && item != "." {
      out := "* " + item + "\n";
    } else {
      out := "";
    }
  }

  /** A paragraph with content: a blank line, its children, a newline, then
      the footer is flushed and reset. */
  method RenderParagraph(node: Node, footer: Footer) returns (out: string)
    requires node.Element? && node.tag == "p"
    modifies footer
    ensures out == Join(ParagraphOutput(node.children, old(footer.lines), footer.escape).pieces)
    ensures footer.lines == ParagraphOutput(node.children, old(footer.lines), footer.escape).pending
    decreases node, 0
  {
    ghost var before := footer.lines;
    var children := node.children;
    out := "";
    if children != [] && (!children[0].Text? || children[0].data != "") {
      var inner := Render(children, footer);
      var flush := footer.String();
      footer.Reset();
      out := "\n\n" + inner + "\n" + flush;
      ParagraphText(children, before, footer.escape, inner, flush);
    }
  }

  /** An anchor: with a non-empty href its flattened text is written and its
      link added to the footer; otherwise it is transparent. */
  method RenderAnchor(node: Node, footer: Footer) returns (out: string)
    requires node.Element? && node.tag == "a"
    modifies footer
    ensures out == Join(AnchorOutput(node, old(footer.lines), footer.escape).pieces)
    ensures footer.lines == AnchorOutput(node, old(footer.lines), footer.escape).pending
    decreases node, 0
  {
    var href := FindHref(node.attrs);
    if href != "" {
      var name := GetText(node);
      footer.AddLink(name, href);
      out := name;
    } else {
      out := Render(node.children, footer);
    }
  }

  /** What the parser gave the converter. */
  datatype ParseOutcome =
    | ParseFailed(reason: string)
    | NoDocument
    | Parsed(root: Node)

  /** The page for a parse outcome: the two fallback messages, or the
      rendered document followed by one final footer flush. */
  method Convert(parsed: ParseOutcome, escape: string -> string) returns (page: string)
    ensures parsed.ParseFailed? ==> page == "could not parse: " + parsed.reason
    ensures parsed.NoDocument? ==> page == "Could not render page"
    ensures parsed.Parsed? ==> page == ConvertText(parsed.root, escape)
  {
    match parsed {
      case ParseFailed(reason) =>
        page := "could not parse: " + reason;
      case NoDocument =>
        page := "Could not render page";
      case Parsed(doc) =>
        var footer := new Footer(escape);
        var body := Render([doc], footer);
        page := body + footer.String();
        ghost var r := RenderChain([doc], [], escape);
        JoinAppend(r.pieces, [Links(r.pending)]);
    }
  }
}
