/** The parsed document tree the converter walks, and the two small string
    operations it applies to the tree's text and attributes. */
module Html {

  /** One `key="val"` attribute of an element; keys are compared exactly. */
  datatype Attribute = Attribute(key: string, val: string)

  /** A node of the parsed document. A sibling chain (first child, next
      sibling, next sibling, ...) is a `seq<Node>`; only documents and
      elements own children. */
  datatype Node =
    | Error
    | Text(data: string)
    | Document(children: seq<Node>)
    | Element(tag: string, attrs: seq<Attribute>, children: seq<Node>)
    | Comment(data: string)
    | Doctype(data: string)
    | Raw(data: string)

  /** An element whose tag is exactly "ref": it opens or closes a citation bracket. */
  predicate IsRef(n: Node) {
    n.Element? && n.tag == "ref"
  }

  /** `s` with every newline character removed; nothing is put in its place. */
  function StripNewlines(s: string): (r: string)
    ensures '\n' !in r
    ensures |r| <= |s|
    ensures '\n' !in s ==> r == s
    ensures forall c :: c != '\n' ==> multiset(r)[c] == multiset(s)[c]
  {
    if s == [] then ""
    else
      assert s == [s[0]] + s[1..];
      if s[0] == '\n' then StripNewlines(s[1..]) else [s[0]] + StripNewlines(s[1..])
  }

  lemma {:induction false} StripNewlinesAppend(a: string, b: string)
    ensures StripNewlines(a + b) == StripNewlines(a) + StripNewlines(b)
  {
    if a == [] {
      assert a + b == b;
    } else {
      assert (a + b)[0] == a[0] && (a + b)[1..] == a[1..] + b;
      StripNewlinesAppend(a[1..], b);
    }
  }

  /** A line break between two stretches of text disappears and the two
      stretches are joined in their original order. */
  lemma StripNewlinesJoinsLines(a: string, b: string)
    ensures StripNewlines(a + "\n" + b) == StripNewlines(a) + StripNewlines(b)
  {
    StripNewlinesAppend(a + "\n", b);
    StripNewlinesAppend(a, "\n");
    assert StripNewlines("\n") == "";
  }

  /** The value of the first attribute whose key is exactly "href", or the
      empty string when there is none. */
  function Href(attrs: seq<Attribute>): (r: string)
    ensures forall k :: (0 <= k < |attrs| && attrs[k].key == "href" &&
                         forall j :: 0 <= j < k ==> attrs[j].key != "href") ==> r == attrs[k].val
    ensures (forall k :: 0 <= k < |attrs| ==> attrs[k].key != "href") ==> r == ""
  {
    if attrs == [] then ""
    else if attrs[0].key == "href" then attrs[0].val
    else
      var r := Href(attrs[1..]);
      assert forall k :: 1 <= k < |attrs| ==> attrs[k] == attrs[1..][k - 1];
      r
  }

  /** The anchor's scan of its attribute list: stop at the first "href". */
  method FindHref(attrs: seq<Attribute>) returns (href: string)
    ensures href == Href(attrs)
    ensures href != "" ==> exists k :: 0 <= k < |attrs| && attrs[k].key == "href" && attrs[k].val == href
  {
    href := "";
    var i := 0;
    while i < |attrs|
      invariant 0 <= i <= |attrs|
      invariant forall j :: 0 <= j < i ==> attrs[j].key != "href"
      invariant Href(attrs) == Href(attrs[i..])
    {
      if attrs[i].key == "href" {
        href := attrs[i].val;
        break;
      }
      assert attrs[i..][1..] == attrs[i + 1..];
      i := i + 1;
    }
  }
}
