/** The footer: the link lines an article's anchors register, held back until
    the next heading, the end of the next paragraph or the end of the page. */
module LinkFooter {

  /** The lines one after another, in order. */
  function Concat(lines: seq<string>): string {
    if lines == [] then "" else lines[0] + Concat(lines[1..])
  }

  lemma {:induction false} ConcatAppend(a: seq<string>, b: seq<string>)
    ensures Concat(a + b) == Concat(a) + Concat(b)
  {
    if a == [] {
      assert a + b == b;
    } else {
      assert (a + b)[0] == a[0] && (a + b)[1..] == a[1..] + b;
      ConcatAppend(a[1..], b);
    }
  }

  /** Line `k` stands in the concatenation between all the lines before it
      and all the lines after it, so no line is lost, repeated or reordered. */
  lemma ConcatSplit(lines: seq<string>, k: nat)
    requires k < |lines|
    ensures Concat(lines) == Concat(lines[..k]) + lines[k] + Concat(lines[k + 1..])
  {
    assert lines == lines[..k] + lines[k..];
    ConcatAppend(lines[..k], lines[k..]);
    assert lines[k..][0] == lines[k] && lines[k..][1..] == lines[k + 1..];
  }

  /** What the footer writes when it is flushed: one newline, then every
      pending line in the order the lines were added. */
  function FooterText(lines: seq<string>): string {
    "\n" + Concat(lines)
  }

  /** Adding a line to the footer appends exactly that line to its text. */
  lemma FooterTextAppend(lines: seq<string>, line: string)
    ensures FooterText(lines + [line]) == FooterText(lines) + line
  {
    ConcatAppend(lines, [line]);
  }

  /** One explicit link line: marker, escaped target, display text. */
  function LinkLine(escape: string -> string, name: string, href: string): (r: string)
    ensures |r| == |escape(href)| + |name| + 5
    ensures r[..3] == "=> " && r[3 + |escape(href)|] == ' ' && r[|r| - 1] == '\n'
  {
    "=> " + escape(href) + " " + name + "\n"
  }

  /** The pending link lines of one conversion. `escape` stands for the
      path escaping applied to every target when its link is added. */
  class Footer {
    const escape: string -> string
    var lines: seq<string>

    constructor (escape: string -> string)
      ensures this.escape == escape
      ensures lines == [] && String() == "\n"
    {
      this.escape := escape;
      lines := [];
    }

    /** Appends one line for the link; no deduplication. */
    method AddLink(name: string, href: string)
      modifies this
      ensures lines == old(lines) + [LinkLine(escape, name, href)]
      ensures String() == old(String()) + "=> " + escape(href) + " " + name + "\n"
    {
      FooterTextAppend(lines, LinkLine(escape, name, href));
      lines := lines + [LinkLine(escape, name, href)];
    }

    /** The footer's text: always starts with one newline. */
    function String(): (r: string)
      reads this
      ensures |r| > 0 && r[0] == '\n'
      ensures lines == [] ==> r == "\n"
    {
      FooterText(lines)
    }

    /** Discards every pending line; flushing afterwards gives one newline. */
    method Reset()
      modifies this
      ensures lines == [] && String() == "\n"
    {
      lines := [];
    }
  }
}
