/** The text extractor: the flattened text of a node, used for heading titles
    and anchor display text. Tags and attributes play no part in it. */
module TextExtract {
  import opened Html

  /** Text nodes give their data without newlines, elements the flattened
      text of their children in order, every other node nothing. */
  function Flatten(n: Node): (r: string)
    ensures '\n' !in r
  {
    match n
    case Text(data) => StripNewlines(data)
    case Element(_, _, children) => FlattenSeq(children)
    case _ => ""
  }

  /** The flattened texts of a sibling chain, concatenated in order. */
  function FlattenSeq(ns: seq<Node>): (r: string)
    ensures '\n' !in r
  {
    if ns == [] then "" else Flatten(ns[0]) + FlattenSeq(ns[1..])
  }

  lemma {:induction false} FlattenSeqAppend(a: seq<Node>, b: seq<Node>)
    ensures FlattenSeq(a + b) == FlattenSeq(a) + FlattenSeq(b)
  {
    if a == [] {
      assert a + b == b;
    } else {
      assert (a + b)[0] == a[0] && (a + b)[1..] == a[1..] + b;
      FlattenSeqAppend(a[1..], b);
    }
  }

  /** `n` and `m` differ at most in the tags and attributes of their
      elements, anywhere in the subtree. */
  predicate SameText(n: Node, m: Node)
    decreases n, 1
  {
    match n
    case Element(_, _, children) => m.Element? && SameTextSeq(children, m.children)
    case _ => n == m
  }

  /** Two chains of the same length whose nodes pairwise differ at most in
      markup. */
  predicate SameTextSeq(a: seq<Node>, b: seq<Node>)
    decreases a, 0
  {
    |a| == |b| && forall i :: 0 <= i < |a| ==> SameText(a[i], b[i])
  }

  /** Tags and attributes never change the flattened text: re-tagging any
      element of the subtree, or changing its attributes, leaves it as it is. */
  lemma {:induction false} FlattenIgnoresMarkup(n: Node, m: Node)
    requires SameText(n, m)
    ensures Flatten(n) == Flatten(m)
    decreases n, 1
  {
    match n {
      case Element(_, _, children) => FlattenSeqIgnoresMarkup(children, m.children);
      case _ =>
    }
  }

  lemma {:induction false} FlattenSeqIgnoresMarkup(a: seq<Node>, b: seq<Node>)
    requires SameTextSeq(a, b)
    ensures FlattenSeq(a) == FlattenSeq(b)
    decreases a, 0
  {
    if a != [] {
      FlattenIgnoresMarkup(a[0], b[0]);
      forall i | 0 <= i < |a| - 1
        ensures SameText(a[1..][i], b[1..][i])
      {
        assert a[1..][i] == a[i + 1] && b[1..][i] == b[i + 1];
      }
      FlattenSeqIgnoresMarkup(a[1..], b[1..]);
    }
  }

  /** A chain of text nodes flattens to the concatenation of their data with
      every newline removed. */
  lemma {:induction false} FlattenTexts(ns: seq<Node>)
    requires forall i :: 0 <= i < |ns| ==> ns[i].Text?
    ensures FlattenSeq(ns) == StripNewlines(TextData(ns))
  {
    if ns != [] {
      FlattenTexts(ns[1..]);
      StripNewlinesAppend(ns[0].data, TextData(ns[1..]));
    }
  }

  /** The data of a chain of text nodes, concatenated. */
  function TextData(ns: seq<Node>): string
    requires forall i :: 0 <= i < |ns| ==> ns[i].Text?
  {
    if ns == [] then "" else ns[0].data + TextData(ns[1..])
  }

  /** Walks the children of an element with a cursor, appending each child's
      flattened text. */
  method GetText(n: Node) returns (t: string)
    ensures t == Flatten(n)
    ensures '\n' !in t
    decreases n
  {
    match n {
      case Text(data) =>
        t := StripNewlines(data);
      case Element(_, _, children) =>
        t := "";
        var i := 0;
        while i < |children|
          invariant 0 <= i <= |children|
          invariant t == FlattenSeq(children[..i])
        {
          var s := GetText(children[i]);
          FlattenSeqAppend(children[..i], [children[i]]);
          assert children[..i + 1] == children[..i] + [children[i]];
          t := t + s;
          i := i + 1;
        }
        assert children[..i] == children;
      case _ =>
        t := "";
    }
  }
}
