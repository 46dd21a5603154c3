/**
  The parsed HTML tree the extractors walk, and the two tree queries they use:
  BeautifulSoup's `find_all(name)` (a pre-order walk over the descendants,
  keeping the elements with that tag name) and `.text` (all text below a node,
  concatenated in document order).
 */
module Dom {

  /** The class the parser gives a string (BeautifulSoup 4.10 and later):
      ordinary text, a CDATA section, markup that is not text (a comment,
      doctype, declaration or processing instruction), or ordinary text
      inside a `script`, `style`, `template`, `rt` or `rp` element. */
  datatype StringKind =
    | Navigable
    | CData
    | Markup
    | Script
    | Stylesheet
    | Template
    | RubyText
    | RubyParenthesis

  /** A parsed node: a string with its kind, or an element with its
      (lower-case) tag name, its attributes and its children in document order. */
  datatype Node =
    | TextNode(content: string, kind: StringKind)
    | Element(tag: string, attrs: map<string, string>, children: seq<Node>)

  /** A parsed page: its top-level nodes in document order. */
  type Document = seq<Node>

  function Children(n: Node): seq<Node> {
    if n.Element? then n.children else []
  }

  predicate HasTag(n: Node, t: string) {
    n.Element? && n.tag == t
  }

  /** Every node below the forest `ns`, each node before its own descendants
      and before its later siblings (BeautifulSoup's `descendants`). */
  function Descendants(ns: seq<Node>): seq<Node>
    decreases ns
  {
    if ns == [] then []
    else if ns[0].TextNode? then [ns[0]] + Descendants(ns[1..])
    else [ns[0]] + Descendants(ns[0].children) + Descendants(ns[1..])
  }

  /** `x` occurs somewhere in the forest `ns`: as one of its roots or below one. */
  ghost predicate Within(x: Node, ns: seq<Node>)
    decreases ns
  {
    exists i :: 0 <= i < |ns| && (x == ns[i] || (ns[i].Element? && Within(x, ns[i].children)))
  }

  /** The elements of `ns` with tag `t`, in their order in `ns`. */
  function FilterTag(ns: seq<Node>, t: string): (r: seq<Node>)
    ensures |r| <= |ns|
    ensures forall i :: 0 <= i < |r| ==> HasTag(r[i], t)
    ensures forall x :: x in r <==> x in ns && HasTag(x, t)
  {
    if ns == [] then []
    else (if HasTag(ns[0], t) then [ns[0]] else []) + FilterTag(ns[1..], t)
  }

  lemma {:induction false} FilterTagAppend(a: seq<Node>, b: seq<Node>, t: string)
    ensures FilterTag(a + b, t) == FilterTag(a, t) + FilterTag(b, t)
  {
    if a == [] {
      assert a + b == b;
    } else {
      assert (a + b)[0] == a[0];
      assert (a + b)[1..] == a[1..] + b;
      FilterTagAppend(a[1..], b, t);
    }
  }

  /** BeautifulSoup's `find_all(t)` called on a tag (or on the document) whose
      children are `ns`: the descendants with tag name `t`, in document order. */
  function FindAll(ns: seq<Node>, t: string): (r: seq<Node>)
    ensures forall i :: 0 <= i < |r| ==> HasTag(r[i], t)
    ensures forall x :: x in r <==> x in Descendants(ns) && HasTag(x, t)
  {
    FilterTag(Descendants(ns), t)
  }

  /** `find_all` splits along the first root: the root itself if it matches,
      then the matches below it, then the matches in the later siblings. */
  lemma FindAllCons(ns: seq<Node>, t: string)
    requires ns != []
    ensures FindAll(ns, t)
         == (if HasTag(ns[0], t) then [ns[0]] else []) + FindAll(Children(ns[0]), t) + FindAll(ns[1..], t)
  {
    var below := Descendants(Children(ns[0]));
    var later := Descendants(ns[1..]);
    assert Descendants(ns) == [ns[0]] + below + later;
    FilterTagAppend([ns[0]] + below, later, t);
    FilterTagAppend([ns[0]], below, t);
  }

  /** Walking two forests one after the other is walking their concatenation. */
  lemma {:induction false} DescendantsAppend(a: seq<Node>, b: seq<Node>)
    ensures Descendants(a + b) == Descendants(a) + Descendants(b)
  {
    if a == [] {
      assert a + b == b;
    } else {
      assert (a + b)[0] == a[0];
      assert (a + b)[1..] == a[1..] + b;
      DescendantsAppend(a[1..], b);
    }
  }

  /** `find_all` over two forests one after the other is the concatenation of the results. */
  lemma FindAllAppend(a: seq<Node>, b: seq<Node>, t: string)
    ensures FindAll(a + b, t) == FindAll(a, t) + FindAll(b, t)
  {
    DescendantsAppend(a, b);
    FilterTagAppend(Descendants(a), Descendants(b), t);
  }

  /** The descendants walk visits exactly the nodes occurring in the forest. */
  lemma {:induction false} DescendantsAreWithin(x: Node, ns: seq<Node>)
    ensures x in Descendants(ns) <==> Within(x, ns)
    decreases ns
  {
    if ns == [] {
    } else {
      var below := Children(ns[0]);
      if ns[0].Element? {
        DescendantsAreWithin(x, ns[0].children);
      }
      DescendantsAreWithin(x, ns[1..]);
      assert Descendants(ns) == [ns[0]] + Descendants(below) + Descendants(ns[1..]);
      if Within(x, ns) {
        var i :| 0 <= i < |ns| && (x == ns[i] || (ns[i].Element? && Within(x, ns[i].children)));
        if i > 0 {
          assert ns[1..][i - 1] == ns[i];
          assert Within(x, ns[1..]);
        }
      }
      if Within(x, ns[1..]) {
        var i :| 0 <= i < |ns[1..]| && (x == ns[1..][i] || (ns[1..][i].Element? && Within(x, ns[1..][i].children)));
        assert ns[1..][i] == ns[i + 1];
      }
      if x == ns[0] || (ns[0].Element? && Within(x, below)) {
        assert Within(x, ns);
      }
    }
  }

  /** The kind an ordinary string gets directly inside an element with tag
      `t`: the tags with a string container of their own change it, the
      others leave it `Navigable`. */
  function ContainerKind(t: string): StringKind {
    if t == "script" then Script
    else if t == "style" then Stylesheet
    else if t == "template" then Template
    else if t == "rt" then RubyText
    else if t == "rp" then RubyParenthesis
    else Navigable
  }

  /** The string kinds `.text` of an element with tag `t` collects: its own
      container kind for the five special tags, ordinary text and CDATA for
      every other tag. */
  function TextKinds(t: string): set<StringKind> {
    if ContainerKind(t) == Navigable then {Navigable, CData} else {ContainerKind(t)}
  }

  /** How the parser assigns kinds: an ordinary string takes the kind of its
      innermost enclosing special element (`inherited` above the forest), while
      CDATA and non-text markup keep their own kind. */
  ghost predicate KindsAsParsed(ns: seq<Node>, inherited: StringKind)
    decreases ns
  {
    forall i :: 0 <= i < |ns| ==>
      match ns[i]
      case TextNode(_, k) => k == inherited || k == CData || k == Markup
      case Element(t, _, cs) =>
        KindsAsParsed(cs, if ContainerKind(t) == Navigable then inherited else ContainerKind(t))
  }

  /** Concatenation of the strings among `ns` whose kind is in `kinds`, in order. */
  function JoinText(ns: seq<Node>, kinds: set<StringKind>): string {
    if ns == [] then []
    else (if ns[0].TextNode? && ns[0].kind in kinds then ns[0].content else []) + JoinText(ns[1..], kinds)
  }

  lemma {:induction false} JoinTextAppend(a: seq<Node>, b: seq<Node>, kinds: set<StringKind>)
    ensures JoinText(a + b, kinds) == JoinText(a, kinds) + JoinText(b, kinds)
  {
    if a == [] {
      assert a + b == b;
    } else {
      assert (a + b)[0] == a[0];
      assert (a + b)[1..] == a[1..] + b;
      JoinTextAppend(a[1..], b, kinds);
    }
  }

  /** Reference reading of the text below a forest, child by child: a string
      counts when its kind is in `kinds`, an element contributes the text below it. */
  function TextBelow(ns: seq<Node>, kinds: set<StringKind>): string
    decreases ns
  {
    if ns == [] then []
    else if ns[0].TextNode? then
      (if ns[0].kind in kinds then ns[0].content else []) + TextBelow(ns[1..], kinds)
    else TextBelow(ns[0].children, kinds) + TextBelow(ns[1..], kinds)
  }

  /** Joining the strings met by the descendants walk is reading the forest child by child. */
  lemma {:induction false} JoinTextIsTextBelow(ns: seq<Node>, kinds: set<StringKind>)
    ensures JoinText(Descendants(ns), kinds) == TextBelow(ns, kinds)
    decreases ns
  {
    if ns != [] {
      JoinTextIsTextBelow(ns[1..], kinds);
      if ns[0].TextNode? {
        JoinTextAppend([ns[0]], Descendants(ns[1..]), kinds);
      } else {
        JoinTextIsTextBelow(ns[0].children, kinds);
        JoinTextAppend([ns[0]] + Descendants(ns[0].children), Descendants(ns[1..]), kinds);
        JoinTextAppend([ns[0]], Descendants(ns[0].children), kinds);
      }
    }
  }

  /** BeautifulSoup's `.text`: the strings below the node of the kinds its tag
      collects, joined in document order (a string node is its own text). */
  function TextOf(n: Node): (r: string)
    ensures n.TextNode? ==> r == n.content
    ensures n.Element? ==> r == TextBelow(n.children, TextKinds(n.tag))
  {
    if n.TextNode? then n.content
    else
      JoinTextIsTextBelow(n.children, TextKinds(n.tag));
      JoinText(Descendants(n.children), TextKinds(n.tag))
  }

  /** `.text` of an ordinary element leaves out a script inside it and a
      comment, while the script's own `.text` is its code. */
  lemma TextSkipsScriptAndComments()
    ensures var script := Element("script", map[], [TextNode("x", Script)]);
            var h := Element("h1", map[], [TextNode("A", Navigable), script, TextNode("c", Markup)]);
            && KindsAsParsed([h], Navigable)
            && TextOf(h) == "A"
            && TextOf(script) == "x"
  {
    var script := Element("script", map[], [TextNode("x", Script)]);
    var h := Element("h1", map[], [TextNode("A", Navigable), script, TextNode("c", Markup)]);
    assert KindsAsParsed(script.children, Script);
    assert KindsAsParsed(h.children, Navigable);
    assert TextBelow(script.children, TextKinds("h1")) == [];
    assert TextBelow(h.children[2..], TextKinds("h1")) == [];
    assert TextBelow(h.children[1..], TextKinds("h1")) == [];
  }
}
