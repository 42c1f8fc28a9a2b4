/** What the conversion promises, stated over the specification `RenderChain`
    (which `Render` and `Convert` are proved to implement). */
module GemtextProperties {
  import opened Html
  import opened LinkFooter
  import opened TextExtract
  import opened Gemtext

  // ---------------------------------------------------------------------
  // Link bookkeeping: every registered link is flushed exactly once
  // ---------------------------------------------------------------------

  /** Replays the pieces against a footer that starts out holding `pending`:
      an anchor adds its line, a flush must write exactly the lines pending
      at that point and leaves the footer empty. `final` is what is pending
      at the end. */
  predicate Balanced(ps: seq<Piece>, pending: seq<string>, final: seq<string>)
    decreases |ps|
  {
    if ps == [] then pending == final
    else
      match ps[0]
      case Inline(_) => Balanced(ps[1..], pending, final)
      case Anchor(_, line) => Balanced(ps[1..], pending + [line], final)
      case Links(lines) => lines == pending && Balanced(ps[1..], [], final)
  }

  /** The link lines the anchors among the pieces registered, in order. */
  function Registered(ps: seq<Piece>): seq<string> {
    if ps == [] then []
    else (if ps[0].Anchor? then [ps[0].line] else []) + Registered(ps[1..])
  }

  /** The link lines the flushes among the pieces wrote, in order. */
  function Flushed(ps: seq<Piece>): seq<string> {
    if ps == [] then []
    else (if ps[0].Links? then ps[0].lines else []) + Flushed(ps[1..])
  }

  lemma {:induction false} BalancedAppend(a: seq<Piece>, b: seq<Piece>, p: seq<string>, m: seq<string>, f: seq<string>)
    requires Balanced(a, p, m) && Balanced(b, m, f)
    ensures Balanced(a + b, p, f)
    decreases |a|
  {
    if a == [] {
      assert a + b == b;
    } else {
      assert (a + b)[0] == a[0] && (a + b)[1..] == a[1..] + b;
      match a[0] {
        case Inline(_) => BalancedAppend(a[1..], b, p, m, f);
        case Anchor(_, line) => BalancedAppend(a[1..], b, p + [line], m, f);
        case Links(_) => BalancedAppend(a[1..], b, [], m, f);
      }
    }
  }

  /** Dropping the text of pieces that flush nothing keeps their links. */
  lemma {:induction false} BalancedMuted(ps: seq<Piece>, p: seq<string>, f: seq<string>)
    requires Balanced(ps, p, f)
    requires forall i :: 0 <= i < |ps| ==> !ps[i].Links?
    ensures Balanced(Muted(ps), p, f)
    decreases |ps|
  {
    if ps != [] {
      assert !ps[0].Links?;
      match ps[0] {
        case Inline(_) =>
          BalancedMuted(ps[1..], p, f);
        case Anchor(_, line) =>
          BalancedMuted(ps[1..], p + [line], f);
          assert Muted(ps) == [Anchor("", line)] + Muted(ps[1..]);
      }
    }
  }

  /** A balanced replay neither loses, repeats nor reorders a line: the
      lines pending at the start followed by the registered ones are exactly
      the flushed ones followed by those still pending. */
  lemma {:induction false} BalancedConserves(ps: seq<Piece>, p: seq<string>, f: seq<string>)
    requires Balanced(ps, p, f)
    ensures p + Registered(ps) == Flushed(ps) + f
    decreases |ps|
  {
    if ps != [] {
      match ps[0] {
        case Inline(_) =>
          BalancedConserves(ps[1..], p, f);
          assert Registered(ps) == Registered(ps[1..]) && Flushed(ps) == Flushed(ps[1..]);
        case Anchor(_, line) =>
          BalancedConserves(ps[1..], p + [line], f);
          assert Registered(ps) == [line] + Registered(ps[1..]);
          assert Flushed(ps) == Flushed(ps[1..]);
          assert p + Registered(ps) == (p + [line]) + Registered(ps[1..]);
        case Links(lines) =>
          BalancedConserves(ps[1..], [], f);
          assert [] + Registered(ps[1..]) == Registered(ps[1..]);
      }
    }
  }

  /** A pending line is written by the next flush when nothing is left
      pending at the end. */
  lemma {:induction false} PendingIsFlushed(ps: seq<Piece>, p: seq<string>, x: string)
    requires Balanced(ps, p, []) && x in p
    ensures exists j :: 0 <= j < |ps| && ps[j].Links? && x in ps[j].lines &&
                        forall k :: 0 <= k < j ==> !ps[k].Links?
    decreases |ps|
  {
    match ps[0] {
      case Inline(_) =>
        PendingIsFlushed(ps[1..], p, x);
        var j :| 0 <= j < |ps[1..]| && ps[1..][j].Links? && x in ps[1..][j].lines &&
                 forall k :: 0 <= k < j ==> !ps[1..][k].Links?;
        assert ps[j + 1] == ps[1..][j];
        assert forall k :: 0 < k < j + 1 ==> ps[k] == ps[1..][k - 1];
      case Anchor(_, line) =>
        PendingIsFlushed(ps[1..], p + [line], x);
        var j :| 0 <= j < |ps[1..]| && ps[1..][j].Links? && x in ps[1..][j].lines &&
                 forall k :: 0 <= k < j ==> !ps[1..][k].Links?;
        assert ps[j + 1] == ps[1..][j];
        assert forall k :: 0 < k < j + 1 ==> ps[k] == ps[1..][k - 1];
      case Links(lines) =>
    }
  }

  /** The line an anchor registers is written by the first flush after the
      anchor's display text. */
  lemma {:induction false} AnchorFlushedLater(ps: seq<Piece>, p: seq<string>, i: nat)
    requires Balanced(ps, p, []) && i < |ps| && ps[i].Anchor?
    ensures exists j :: i < j < |ps| && ps[j].Links? && ps[i].line in ps[j].lines &&
                        forall k :: i < k < j ==> !ps[k].Links?
    decreases |ps|
  {
    if i == 0 {
      PendingIsFlushed(ps[1..], p + [ps[0].line], ps[0].line);
      var j :| 0 <= j < |ps[1..]| && ps[1..][j].Links? && ps[0].line in ps[1..][j].lines &&
               forall k :: 0 <= k < j ==> !ps[1..][k].Links?;
      assert ps[j + 1] == ps[1..][j];
      assert forall k :: 0 < k < j + 1 ==> ps[k] == ps[1..][k - 1];
    } else {
      match ps[0] {
        case Inline(_) => AnchorFlushedLater(ps[1..], p, i - 1);
        case Anchor(_, line) => AnchorFlushedLater(ps[1..], p + [line], i - 1);
        case Links(_) => AnchorFlushedLater(ps[1..], [], i - 1);
      }
      var j :| i - 1 < j < |ps[1..]| && ps[1..][j].Links? && ps[1..][i - 1].line in ps[1..][j].lines &&
               forall k :: i - 1 < k < j ==> !ps[1..][k].Links?;
      assert ps[j + 1] == ps[1..][j];
      assert forall k :: i < k < j + 1 ==> ps[k] == ps[1..][k - 1];
    }
  }

  /** Rendering a chain replays: every flush inside it writes exactly the
      lines pending at that point, and what it leaves pending is `pending`. */
  lemma {:induction false} ChainBalanced(ns: seq<Node>, p: seq<string>, escape: string -> string)
    ensures var r := RenderChain(ns, p, escape); Balanced(r.pieces, p, r.pending)
    decreases ns
  {
    if ns == [] {
    } else if IsRef(ns[0]) {
      SkipBalanced(ns[1..], p, escape);
    } else {
      var head := RenderNode(ns[0], p, escape);
      NodeBalanced(ns[0], p, escape);
      ChainBalanced(ns[1..], head.pending, escape);
      BalancedAppend(head.pieces, RenderChain(ns[1..], head.pending, escape).pieces, p, head.pending,
                     RenderChain(ns[1..], head.pending, escape).pending);
    }
  }

  lemma {:induction false} SkipBalanced(ns: seq<Node>, p: seq<string>, escape: string -> string)
    ensures var r := SkipRef(ns, p, escape); Balanced(r.pieces, p, r.pending)
    decreases ns
  {
    if ns == [] {
    } else if IsRef(ns[0]) {
      ChainBalanced(ns[1..], p, escape);
    } else {
      SkipBalanced(ns[1..], p, escape);
    }
  }

  lemma {:induction false} NodeBalanced(n: Node, p: seq<string>, escape: string -> string)
    requires !IsRef(n)
    ensures var r := RenderNode(n, p, escape); Balanced(r.pieces, p, r.pending)
    decreases n
  {
    match n {
      case Document(children) =>
        ChainBalanced(children, p, escape);
      case Element(tag, attrs, children) =>
        if IsHeading(tag) {
        } else if tag == "li" {
          var item := RenderChain(children, p, escape);
          ChainBalanced(children, p, escape);
          if ItemKept(Join(item.pieces)) {
            BalancedAppend([Inline("* ")], item.pieces, p, p, item.pending);
            BalancedAppend([Inline("* ")] + item.pieces, [Inline("\n")], p, item.pending, item.pending);
          } else {
            ShortItemHasNoFlush(item.pieces);
            BalancedMuted(item.pieces, p, item.pending);
          }
        } else if tag == "p" {
          if ParagraphHasContent(children) {
            var body := RenderChain(children, p, escape);
            ChainBalanced(children, p, escape);
            BalancedAppend([Inline("\n\n")], body.pieces, p, p, body.pending);
            BalancedAppend([Inline("\n\n")] + body.pieces, [Inline("\n"), Links(body.pending)], p, body.pending, []);
          }
        } else if tag == "a" {
          if Href(attrs) == "" {
            ChainBalanced(children, p, escape);
          }
        }
      case _ =>
    }
  }

  /** The page: every link line an anchor registered during the conversion
      is written in a footer block exactly once, in the order registered,
      and nothing else is written in footer blocks. */
  lemma ConvertFlushesEveryLinkOnce(doc: Node, escape: string -> string)
    ensures Balanced(ConvertPieces(doc, escape), [], [])
    ensures Flushed(ConvertPieces(doc, escape)) == Registered(ConvertPieces(doc, escape))
  {
    var r := RenderChain([doc], [], escape);
    ChainBalanced([doc], [], escape);
    BalancedAppend(r.pieces, [Links(r.pending)], [], r.pending, []);
    var ps := ConvertPieces(doc, escape);
    BalancedConserves(ps, [], []);
    assert [] + Registered(ps) == Registered(ps) && Flushed(ps) + [] == Flushed(ps);
  }

  /** On the page, each anchor's link line is written after the anchor's
      display text, by the next flush. */
  lemma ConvertFlushesAfterAnchor(doc: Node, escape: string -> string, i: nat)
    requires i < |ConvertPieces(doc, escape)| && ConvertPieces(doc, escape)[i].Anchor?
    ensures var ps := ConvertPieces(doc, escape);
            exists j :: i < j < |ps| && ps[j].Links? && ps[i].line in ps[j].lines &&
                        forall k :: i < k < j ==> !ps[k].Links?
  {
    ConvertFlushesEveryLinkOnce(doc, escape);
    AnchorFlushedLater(ConvertPieces(doc, escape), [], i);
  }

  /** A list item flushes nothing of its own: the only flushes among its
      pieces are those of the paragraphs and headings inside it, and what they
      leave pending stays pending after the item. */
  lemma {:induction false} ListItemAddsNoFlush(attrs: seq<Attribute>, children: seq<Node>, p: seq<string>, escape: string -> string)
    ensures var item := RenderChain(children, p, escape);
            var r := RenderNode(Element("li", attrs, children), p, escape);
            Flushed(r.pieces) == Flushed(item.pieces) && r.pending == item.pending
  {
    var item := RenderChain(children, p, escape);
    if ItemKept(Join(item.pieces)) {
      FlushedAppend([Inline("* ")] + item.pieces, [Inline("\n")]);
      FlushedAppend([Inline("* ")], item.pieces);
    } else {
      ShortItemHasNoFlush(item.pieces);
      NoLinksNoFlush(item.pieces);
      MutedNoLinks(item.pieces);
      NoLinksNoFlush(Muted(item.pieces));
    }
  }

  lemma {:induction false} FlushedAppend(a: seq<Piece>, b: seq<Piece>)
    ensures Flushed(a + b) == Flushed(a) + Flushed(b)
  {
    if a == [] {
      assert a + b == b;
    } else {
      assert (a + b)[0] == a[0] && (a + b)[1..] == a[1..] + b;
      FlushedAppend(a[1..], b);
    }
  }

  lemma {:induction false} NoLinksNoFlush(ps: seq<Piece>)
    requires forall i :: 0 <= i < |ps| ==> !ps[i].Links?
    ensures Flushed(ps) == []
  {
    if ps != [] {
      assert !ps[0].Links?;
      NoLinksNoFlush(ps[1..]);
    }
  }

  lemma {:induction false} MutedNoLinks(ps: seq<Piece>)
    requires forall i :: 0 <= i < |ps| ==> !ps[i].Links?
    ensures forall i :: 0 <= i < |Muted(ps)| ==> !Muted(ps)[i].Links?
  {
    if ps != [] {
      assert !ps[0].Links?;
      MutedNoLinks(ps[1..]);
    }
  }
}
