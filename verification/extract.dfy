/**
  The five extractors of the crawler and the content record they fill
  (`extract_headings`, `extract_paragraphs`, `extract_lists`, `extract_links`,
  `extract_images`, `extract_content`).
 */
module Extract {
  import opened Text
  import opened Dom

  /** The record stored per page; field names follow the JSON keys
      `Headings`, `Paragraphs`, `Lists`, `Links`, `Images`. */
  datatype Content = Content(
    headings: seq<string>,
    paragraphs: seq<string>,
    lists: seq<string>,
    links: seq<string>,
    images: seq<string>)

  /** The tag names `'h' + str(i)` for `i` in `range(1, 7)`. */
  const HeadingTags: seq<string> := ["h1", "h2", "h3", "h4", "h5", "h6"]

  /** No value occurs twice in `ts`. */
  predicate Distinct(ts: seq<string>) {
    forall i, j :: 0 <= i < j < |ts| ==> ts[i] != ts[j]
  }

  /** Position of `t` in `ts`, or `|ts|` when it is absent. */
  function IndexOf(t: string, ts: seq<string>): (k: nat)
    ensures k <= |ts|
    ensures k < |ts| <==> t in ts
    ensures k < |ts| ==> ts[k] == t
  {
    if ts == [] then 0 else if ts[0] == t then 0 else 1 + IndexOf(t, ts[1..])
  }

  /** Heading level of an element: 1 for `h1` up to 6 for `h6`. */
  function Level(n: Node): nat {
    Rank(n, HeadingTags) + 1
  }

  predicate HasTagIn(n: Node, ts: seq<string>) {
    n.Element? && n.tag in ts
  }

  /** The elements of `ns` whose tag is one of `ts`, in their order in `ns`. */
  function FilterTags(ns: seq<Node>, ts: seq<string>): (r: seq<Node>)
    ensures forall x :: x in r <==> x in ns && HasTagIn(x, ts)
  {
    if ns == [] then []
    else (if HasTagIn(ns[0], ts) then [ns[0]] else []) + FilterTags(ns[1..], ts)
  }

  /** `.text.strip()` of each node, in order. */
  function StrippedTexts(ns: seq<Node>): (r: seq<string>)
    ensures |r| == |ns|
    ensures forall i :: 0 <= i < |ns| ==> IsTrimOf(r[i], TextOf(ns[i]), IsSpace)
  {
    if ns == [] then [] else [Strip(TextOf(ns[0]))] + StrippedTexts(ns[1..])
  }

  // ---------------------------------------------------------------- headings

  /** `find_all(t)` for each tag `t` of `ts` in turn, results concatenated. */
  function FindAllEach(doc: seq<Node>, ts: seq<string>): seq<Node> {
    if ts == [] then [] else FindAll(doc, ts[0]) + FindAllEach(doc, ts[1..])
  }

  /** The heading elements in the order `extract_headings` visits them. */
  function HeadingElements(doc: Document): seq<Node> {
    FindAllEach(doc, HeadingTags)
  }

  lemma {:induction false} FilterTagOfFilterTag(ns: seq<Node>, t: string, u: string)
    ensures FilterTag(FilterTag(ns, u), t) == if t == u then FilterTag(ns, t) else []
  {
    if ns != [] {
      FilterTagOfFilterTag(ns[1..], t, u);
      FilterTagAppend(if HasTag(ns[0], u) then [ns[0]] else [], FilterTag(ns[1..], u), t);
    }
  }

  lemma {:induction false} FilterTagsSplit(ns: seq<Node>, ts: seq<string>)
    requires ts != [] && ts[0] !in ts[1..]
    ensures multiset(FilterTags(ns, ts)) == multiset(FilterTag(ns, ts[0])) + multiset(FilterTags(ns, ts[1..]))
  {
    if ns != [] {
      FilterTagsSplit(ns[1..], ts);
    }
  }

  lemma {:induction false} FilterTagNone(ns: seq<Node>, t: string)
    requires forall x :: x in ns ==> !HasTag(x, t)
    ensures FilterTag(ns, t) == []
  {
    if ns != [] {
      assert ns[0] in ns;
      FilterTagNone(ns[1..], t);
    }
  }

  /** Rank of a node with respect to `ts`: the position of its tag in `ts`. */
  function Rank(n: Node, ts: seq<string>): nat {
    if n.Element? then IndexOf(n.tag, ts) else |ts|
  }

  predicate SortedByRank(s: seq<Node>, ts: seq<string>) {
    forall i, j :: 0 <= i < j < |s| ==> Rank(s[i], ts) <= Rank(s[j], ts)
  }

  lemma DistinctTail(ts: seq<string>)
    requires Distinct(ts) && ts != []
    ensures Distinct(ts[1..]) && ts[0] !in ts[1..]
  {
    forall k | 0 <= k < |ts[1..]| ensures ts[1..][k] != ts[0] {
      assert ts[1..][k] == ts[k + 1];
    }
  }

  lemma {:induction false} FindAllEachTags(doc: seq<Node>, ts: seq<string>)
    ensures forall x :: x in FindAllEach(doc, ts) ==> HasTagIn(x, ts)
  {
    if ts != [] {
      FindAllEachTags(doc, ts[1..]);
    }
  }

  lemma {:induction false} FindAllEachSorted(doc: seq<Node>, ts: seq<string>)
    requires Distinct(ts)
    ensures SortedByRank(FindAllEach(doc, ts), ts)
  {
    if ts != [] {
      DistinctTail(ts);
      var head := FindAll(doc, ts[0]);
      var rest := FindAllEach(doc, ts[1..]);
      FindAllEachSorted(doc, ts[1..]);
      FindAllEachTags(doc, ts[1..]);
      var all := head + rest;
      forall i, j | 0 <= i < j < |all|
        ensures Rank(all[i], ts) <= Rank(all[j], ts)
      {
        if j < |head| {
          assert HasTag(all[i], ts[0]) && HasTag(all[j], ts[0]);
        } else if i < |head| {
          assert HasTag(all[i], ts[0]);
        } else {
          var x, y := rest[i - |head|], rest[j - |head|];
          assert all[i] == x && all[j] == y;
          assert x in rest && y in rest;
          assert Rank(x, ts[1..]) <= Rank(y, ts[1..]);
        }
      }
    }
  }

  lemma {:induction false} FindAllEachPermutes(doc: seq<Node>, ts: seq<string>)
    requires Distinct(ts)
    ensures multiset(FindAllEach(doc, ts)) == multiset(FilterTags(Descendants(doc), ts))
  {
    if ts == [] {
      var f := FilterTags(Descendants(doc), ts);
      if f != [] {
        assert f[0] in f;
      }
    } else {
      DistinctTail(ts);
      FindAllEachPermutes(doc, ts[1..]);
      FilterTagsSplit(Descendants(doc), ts);
    }
  }

  lemma {:induction false} FindAllEachLevel(doc: seq<Node>, ts: seq<string>, t: string)
    requires Distinct(ts) && t in ts
    ensures FilterTag(FindAllEach(doc, ts), t) == FindAll(doc, t)
  {
    DistinctTail(ts);
    var head := FindAll(doc, ts[0]);
    var rest := FindAllEach(doc, ts[1..]);
    FilterTagAppend(head, rest, t);
    FilterTagOfFilterTag(Descendants(doc), t, ts[0]);
    if t != ts[0] {
      FindAllEachLevel(doc, ts[1..], t);
    } else {
      FindAllEachTags(doc, ts[1..]);
      var fr := FilterTag(rest, t);
      FilterTagNone(rest, t);
      assert FilterTag(head, t) == FindAll(doc, t);
      assert FilterTag(head, t) + fr == FilterTag(head, t);
    }
  }

  /** The headings come grouped by level: all `h1`s, then all `h2`s, ... then all `h6`s. */
  lemma HeadingsSortedByLevel(doc: Document)
    ensures forall i, j :: 0 <= i < j < |HeadingElements(doc)| ==>
      1 <= Level(HeadingElements(doc)[i]) <= Level(HeadingElements(doc)[j]) <= 6
  {
    assert Distinct(HeadingTags);
    var h := HeadingElements(doc);
    FindAllEachSorted(doc, HeadingTags);
    FindAllEachTags(doc, HeadingTags);
    assert SortedByRank(h, HeadingTags);
    forall j | 0 <= j < |h| ensures Level(h[j]) <= 6 {
      assert h[j] in h;
    }
    forall i, j | 0 <= i < j < |h| ensures Level(h[i]) <= Level(h[j]) {
      assert Rank(h[i], HeadingTags) <= Rank(h[j], HeadingTags);
    }
  }

  /** Within one level the headings keep document order: picking the `hN`s out of
      the result gives exactly `find_all('hN')`. */
  lemma HeadingsKeepOrderWithinLevel(doc: Document, t: string)
    requires t in HeadingTags
    ensures FilterTag(HeadingElements(doc), t) == FindAll(doc, t)
  {
    assert Distinct(HeadingTags);
    FindAllEachLevel(doc, HeadingTags, t);
  }

  /** The headings are a rearrangement of the document's heading elements in
      document order: none is lost and none is repeated. */
  lemma HeadingsArePermutation(doc: Document)
    ensures multiset(HeadingElements(doc)) == multiset(FilterTags(Descendants(doc), HeadingTags))
  {
    assert Distinct(HeadingTags);
    FindAllEachPermutes(doc, HeadingTags);
  }

  /** `extract_headings`: one stripped `.text` per heading element, level by level. */
  function ExtractHeadings(doc: Document): (r: seq<string>)
    ensures |r| == |HeadingElements(doc)|
    ensures |r| == |FilterTags(Descendants(doc), HeadingTags)|
    ensures forall i :: 0 <= i < |r| ==> IsTrimOf(r[i], TextOf(HeadingElements(doc)[i]), IsSpace)
  {
    HeadingsArePermutation(doc);
    var h := HeadingElements(doc);
    assert |h| == |multiset(h)| == |multiset(FilterTags(Descendants(doc), HeadingTags))|;
    StrippedTexts(h)
  }

  // -------------------------------------------------------------- paragraphs

  /** `extract_paragraphs`: one stripped `.text` per `p` element, in document order. */
  function ExtractParagraphs(doc: Document): (r: seq<string>)
    ensures |r| == |FindAll(doc, "p")|
    ensures forall i :: 0 <= i < |r| ==> IsTrimOf(r[i], TextOf(FindAll(doc, "p")[i]), IsSpace)
  {
    StrippedTexts(FindAll(doc, "p"))
  }

  // ------------------------------------------------------------------- lists

  /** For each list in turn, every `li` below it (`ul.find_all('li')`). */
  function ItemsOfLists(uls: seq<Node>): seq<Node> {
    if uls == [] then [] else FindAll(Children(uls[0]), "li") + ItemsOfLists(uls[1..])
  }

  /** The list-item elements in the order `extract_lists` visits them. */
  function ListItemElements(doc: seq<Node>): seq<Node> {
    ItemsOfLists(FindAll(doc, "ul"))
  }

  /** `extract_lists`: one stripped `.text` per pair of a `ul` and an `li` below it. */
  function ExtractLists(doc: Document): (r: seq<string>)
    ensures |r| == |ListItemElements(doc)|
    ensures forall i :: 0 <= i < |r| ==> IsTrimOf(r[i], TextOf(ListItemElements(doc)[i]), IsSpace)
    ensures (forall x :: x in Descendants(doc) ==> !HasTag(x, "ul")) ==> r == []
  {
    StrippedTexts(ListItemElements(doc))
  }

  /** `n` repeated `k` times. */
  function Repeat(n: Node, k: nat): (r: seq<Node>)
    ensures |r| == k
  {
    if k == 0 then [] else [n] + Repeat(n, k - 1)
  }

  /** `m` added to itself `k` times. */
  function Scale(k: nat, m: multiset<Node>): multiset<Node> {
    if k == 0 then multiset{} else m + Scale(k - 1, m)
  }

  /** Reference count of list items: walking the forest while counting the
      enclosing `ul`s (`k` of them around `ns`), each `li` is emitted once per
      enclosing `ul`. An `ol` does not count. */
  function ItemsByDepth(ns: seq<Node>, k: nat): seq<Node>
    decreases ns
  {
    if ns == [] then []
    else if ns[0].TextNode? then ItemsByDepth(ns[1..], k)
    else
      (if HasTag(ns[0], "li") then Repeat(ns[0], k) else [])
      + ItemsByDepth(ns[0].children, if HasTag(ns[0], "ul") then k + 1 else k)
      + ItemsByDepth(ns[1..], k)
  }

  lemma {:induction false} ScaleAdd(k: nat, a: multiset<Node>, b: multiset<Node>)
    ensures Scale(k, a + b) == Scale(k, a) + Scale(k, b)
  {
    if k > 0 {
      ScaleAdd(k - 1, a, b);
    }
  }

  lemma {:induction false} RepeatMultiset(n: Node, k: nat)
    ensures multiset(Repeat(n, k)) == Scale(k, multiset{n})
  {
    if k > 0 {
      RepeatMultiset(n, k - 1);
    }
  }

  lemma ItemsOfListsCons(ul: Node, rest: seq<Node>)
    ensures ItemsOfLists([ul] + rest) == FindAll(Children(ul), "li") + ItemsOfLists(rest)
  {
    assert ([ul] + rest)[1..] == rest;
  }

  lemma ConcatAssoc<T>(a: seq<T>, b: seq<T>, c: seq<T>)
    ensures a + (b + c) == (a + b) + c
  {
  }

  lemma {:induction false} ItemsOfListsAppend(a: seq<Node>, b: seq<Node>)
    ensures ItemsOfLists(a + b) == ItemsOfLists(a) + ItemsOfLists(b)
  {
    if a == [] {
      assert a + b == b;
    } else {
      var rest := a[1..] + b;
      assert a + b == [a[0]] + rest;
      ItemsOfListsCons(a[0], rest);
      ItemsOfListsCons(a[0], a[1..]);
      assert a == [a[0]] + a[1..];
      ItemsOfListsAppend(a[1..], b);
      ConcatAssoc(FindAll(Children(a[0]), "li"), ItemsOfLists(a[1..]), ItemsOfLists(b));
    }
  }

  /** `ListItemElements` splits along the first root like `find_all` does. */
  lemma ListItemElementsCons(ns: seq<Node>)
    requires ns != []
    ensures ListItemElements(ns)
         == (if HasTag(ns[0], "ul") then FindAll(Children(ns[0]), "li") else [])
          + ListItemElements(Children(ns[0])) + ListItemElements(ns[1..])
  {
    FindAllCons(ns, "ul");
    var here := if HasTag(ns[0], "ul") then [ns[0]] else [];
    ItemsOfListsAppend(here + FindAll(Children(ns[0]), "ul"), FindAll(ns[1..], "ul"));
    ItemsOfListsAppend(here, FindAll(Children(ns[0]), "ul"));
  }

  /** The statement `ItemsByDepthCount` proves for the forest `ns` and depth `k`. */
  ghost predicate DepthCountHolds(ns: seq<Node>, k: nat) {
    multiset(ItemsByDepth(ns, k)) == Scale(k, multiset(FindAll(ns, "li"))) + multiset(ListItemElements(ns))
  }

  lemma ScaleEmpty(k: nat)
    ensures Scale(k, multiset{}) == multiset{}
  {
    ScaleAdd(k, multiset{}, multiset{});
  }

  lemma DepthCountEmpty(k: nat)
    ensures DepthCountHolds([], k)
  {
    ScaleEmpty(k);
  }

  /** The multiset arithmetic of the inductive step, on its own. */
  lemma DepthCountAlgebra(k: nat, ul: bool, rep: multiset<Node>, here: multiset<Node>,
                          liBelow: multiset<Node>, liLater: multiset<Node>,
                          lsBelow: multiset<Node>, lsLater: multiset<Node>,
                          below: multiset<Node>, later: multiset<Node>)
    requires rep == Scale(k, here)
    requires below == Scale(if ul then k + 1 else k, liBelow) + lsBelow
    requires later == Scale(k, liLater) + lsLater
    ensures rep + below + later
         == Scale(k, here + liBelow + liLater) + ((if ul then liBelow else multiset{}) + lsBelow + lsLater)
  {
    ScaleAdd(k, here + liBelow, liLater);
    ScaleAdd(k, here, liBelow);
  }

  /** Inductive step of `ItemsByDepthCount` for a forest that starts with an element. */
  lemma DepthCountStep(ns: seq<Node>, k: nat)
    requires ns != [] && ns[0].Element?
    requires DepthCountHolds(ns[0].children, if HasTag(ns[0], "ul") then k + 1 else k)
    requires DepthCountHolds(ns[1..], k)
    ensures DepthCountHolds(ns, k)
  {
    var n := ns[0];
    var kids := n.children;
    var ul := HasTag(n, "ul");
    var k' := if ul then k + 1 else k;
    var here := if HasTag(n, "li") then [n] else [];
    var rep := if HasTag(n, "li") then Repeat(n, k) else [];
    var liBelow := multiset(FindAll(kids, "li"));
    var liLater := multiset(FindAll(ns[1..], "li"));
    var lsBelow := multiset(ListItemElements(kids));
    var lsLater := multiset(ListItemElements(ns[1..]));
    assert multiset(rep) == Scale(k, multiset(here)) by {
      if HasTag(n, "li") { RepeatMultiset(n, k); } else { ScaleEmpty(k); }
    }
    assert multiset(ItemsByDepth(ns, k))
           == multiset(rep) + multiset(ItemsByDepth(kids, k')) + multiset(ItemsByDepth(ns[1..], k)) by {
      assert ItemsByDepth(ns, k) == rep + ItemsByDepth(kids, k') + ItemsByDepth(ns[1..], k);
    }
    assert multiset(FindAll(ns, "li")) == multiset(here) + liBelow + liLater by {
      FindAllCons(ns, "li");
    }
    assert multiset(ListItemElements(ns)) == (if ul then liBelow else multiset{}) + lsBelow + lsLater by {
      ListItemElementsCons(ns);
    }
    DepthCountAlgebra(k, ul, multiset(rep), multiset(here), liBelow, liLater, lsBelow, lsLater,
                      multiset(ItemsByDepth(kids, k')), multiset(ItemsByDepth(ns[1..], k)));
  }

  /** Inductive step of `ItemsByDepthCount` for a forest that starts with text. */
  lemma DepthCountTextStep(ns: seq<Node>, k: nat)
    requires ns != [] && ns[0].TextNode?
    requires DepthCountHolds(ns[1..], k)
    ensures DepthCountHolds(ns, k)
  {
    assert Children(ns[0]) == [];
    assert FindAll([], "li") == [] && FindAll([], "ul") == [];
    assert FindAll(ns, "li") == FindAll(ns[1..], "li") by {
      FindAllCons(ns, "li");
    }
    assert ListItemElements(ns) == ListItemElements(ns[1..]) by {
      ListItemElementsCons(ns);
    }
  }

  lemma {:induction false} ItemsByDepthCount(ns: seq<Node>, k: nat)
    ensures DepthCountHolds(ns, k)
    decreases ns
  {
    if ns == [] {
      DepthCountEmpty(k);
    } else if ns[0].TextNode? {
      ItemsByDepthCount(ns[1..], k);
      DepthCountTextStep(ns, k);
    } else {
      ItemsByDepthCount(ns[0].children, if HasTag(ns[0], "ul") then k + 1 else k);
      ItemsByDepthCount(ns[1..], k);
      DepthCountStep(ns, k);
    }
  }

  /** An `li` is listed once for every `ul` it lies below: `extract_lists` yields,
      up to order, exactly the reference walk that emits each `li` as many times
      as it has enclosing `ul`s (so nested lists repeat items and an `li` under
      `ol`s only never appears). */
  lemma ListItemsPerEnclosingList(doc: Document)
    ensures multiset(ListItemElements(doc)) == multiset(ItemsByDepth(doc, 0))
  {
    ItemsByDepthCount(doc, 0);
  }

  // ---------------------------------------------------------- links, images

  /** `n` is an element whose attribute `name` has value `v`. */
  predicate AttrIs(n: Node, name: string, v: string) {
    n.Element? && name in n.attrs && n.attrs[name] == v
  }

  /** `x.get(name)` of each node, kept when truthy (present and non-empty), raw and in order. */
  function TruthyAttrs(ns: seq<Node>, name: string): (r: seq<string>)
    ensures |r| <= |ns|
    ensures forall i :: 0 <= i < |r| ==> r[i] != ""
  {
    if ns == [] then []
    else
      var n := ns[0];
      (if n.Element? && name in n.attrs && n.attrs[name] != "" then [n.attrs[name]] else [])
      + TruthyAttrs(ns[1..], name)
  }

  lemma {:induction false} TruthyAttrsAppend(a: seq<Node>, b: seq<Node>, name: string)
    ensures TruthyAttrs(a + b, name) == TruthyAttrs(a, name) + TruthyAttrs(b, name)
  {
    if a == [] {
      assert a + b == b;
    } else {
      assert (a + b)[0] == a[0];
      assert (a + b)[1..] == a[1..] + b;
      TruthyAttrsAppend(a[1..], b, name);
    }
  }

  /** The values kept are exactly the non-empty values the nodes carry. */
  lemma {:induction false} TruthyAttrsMembers(ns: seq<Node>, name: string, v: string)
    ensures v in TruthyAttrs(ns, name) <==> v != "" && exists x :: x in ns && AttrIs(x, name, v)
  {
    if ns != [] {
      TruthyAttrsMembers(ns[1..], name, v);
      if exists x :: x in ns && AttrIs(x, name, v) {
        var x :| x in ns && AttrIs(x, name, v);
        if x != ns[0] {
          assert x in ns[1..];
        }
      }
      if exists x :: x in ns[1..] && AttrIs(x, name, v) {
        var x :| x in ns[1..] && AttrIs(x, name, v);
        assert x in ns;
      }
      if v in TruthyAttrs(ns, name) && v !in TruthyAttrs(ns[1..], name) {
        assert AttrIs(ns[0], name, v);
      }
    }
  }

  /** `n` is an element whose attribute `name` is truthy: present and non-empty. */
  predicate HasValue(n: Node, name: string) {
    n.Element? && name in n.attrs && n.attrs[name] != ""
  }

  /** The nodes of `ns` whose attribute `name` is truthy, in their order in `ns`. */
  function WithValue(ns: seq<Node>, name: string): (r: seq<Node>)
    ensures |r| <= |ns|
    ensures forall i :: 0 <= i < |r| ==> HasValue(r[i], name)
    ensures forall x :: x in r <==> x in ns && HasValue(x, name)
  {
    if ns == [] then []
    else (if HasValue(ns[0], name) then [ns[0]] else []) + WithValue(ns[1..], name)
  }

  /** The filter keeps every node when every node carries a truthy value. */
  lemma {:induction false} WithValueKeepsAll(ns: seq<Node>, name: string)
    requires forall i :: 0 <= i < |ns| ==> HasValue(ns[i], name)
    ensures WithValue(ns, name) == ns
  {
    if ns != [] {
      WithValueKeepsAll(ns[1..], name);
    }
  }

  /** Index by index, the kept values are the values of the nodes that carry a
      truthy one, in node order: nothing is reordered and repeats stay. */
  lemma {:induction false} TruthyAttrsIndexed(ns: seq<Node>, name: string)
    ensures |TruthyAttrs(ns, name)| == |WithValue(ns, name)|
    ensures forall i :: 0 <= i < |WithValue(ns, name)| ==>
      TruthyAttrs(ns, name)[i] == WithValue(ns, name)[i].attrs[name]
  {
    if ns != [] {
      TruthyAttrsIndexed(ns[1..], name);
    }
  }

  /** When every node carries a non-empty value, nothing is dropped and the
      values come out one per node, in node order. */
  lemma {:induction false} TruthyAttrsKeepsAll(ns: seq<Node>, name: string)
    requires forall i :: 0 <= i < |ns| ==> ns[i].Element? && name in ns[i].attrs && ns[i].attrs[name] != ""
    ensures |TruthyAttrs(ns, name)| == |ns|
    ensures forall i :: 0 <= i < |ns| ==> TruthyAttrs(ns, name)[i] == ns[i].attrs[name]
  {
    WithValueKeepsAll(ns, name);
    TruthyAttrsIndexed(ns, name);
  }

  /** The loop shared by `extract_links` and `extract_images`: for each `t`
      element in document order, its attribute `name` when that is truthy
      (present and non-empty), kept raw. */
  function AttrValues(doc: Document, t: string, name: string): (r: seq<string>)
    ensures |r| <= |FindAll(doc, t)|
    ensures |r| == |WithValue(FindAll(doc, t), name)|
    ensures forall i :: 0 <= i < |r| ==> r[i] == WithValue(FindAll(doc, t), name)[i].attrs[name]
    ensures forall v :: v in r <==>
      v != "" && exists x :: x in Descendants(doc) && HasTag(x, t) && AttrIs(x, name, v)
  {
    forall v ensures v in TruthyAttrs(FindAll(doc, t), name) <==>
      v != "" && exists x :: x in Descendants(doc) && HasTag(x, t) && AttrIs(x, name, v)
    {
      TruthyAttrsMembers(FindAll(doc, t), name, v);
    }
    TruthyAttrsIndexed(FindAll(doc, t), name);
    TruthyAttrs(FindAll(doc, t), name)
  }

  /** The values come out in document order: the first root's own value, then
      the values below it, then those of the later siblings. */
  lemma AttrValuesInDocumentOrder(doc: Document, t: string, name: string)
    requires doc != []
    ensures AttrValues(doc, t, name)
         == (if HasTag(doc[0], t) && HasValue(doc[0], name) then [doc[0].attrs[name]] else [])
            + AttrValues(Children(doc[0]), t, name) + AttrValues(doc[1..], t, name)
  {
    var head := if HasTag(doc[0], t) then [doc[0]] else [];
    FindAllCons(doc, t);
    TruthyAttrsAppend(head + FindAll(Children(doc[0]), t), FindAll(doc[1..], t), name);
    TruthyAttrsAppend(head, FindAll(Children(doc[0]), t), name);
    assert head != [] ==> head[1..] == [];
  }

  /** `extract_links`: the raw, non-empty `href` of each `a` element. */
  function ExtractLinks(doc: Document): seq<string> {
    AttrValues(doc, "a", "href")
  }

  /** `extract_images`: the raw, non-empty `src` of each `img` element. */
  function ExtractImages(doc: Document): seq<string> {
    AttrValues(doc, "img", "src")
  }

  /** `extract_content`: the five extractors' results gathered in one record. */
  function ExtractContent(doc: Document): (r: Content)
    ensures r.headings == ExtractHeadings(doc) && r.paragraphs == ExtractParagraphs(doc)
    ensures r.lists == ExtractLists(doc)
    ensures r.links == ExtractLinks(doc) && r.images == ExtractImages(doc)
  {
    Content(ExtractHeadings(doc), ExtractParagraphs(doc), ExtractLists(doc),
            ExtractLinks(doc), ExtractImages(doc))
  }

  // --------------------------------------------------------------- scenarios

  /** Items of an ordered list alone are not collected. */
  lemma OrderedListItemsSkipped()
    ensures ExtractLists([Element("ol", map[], [Element("li", map[], [TextNode("x", Navigable)])])]) == []
  {
    var t := TextNode("x", Navigable);
    var li := Element("li", map[], [t]);
    var ol := Element("ol", map[], [li]);
    assert Descendants([t]) == [t] by {
      assert [t][1..] == [];
    }
    assert Descendants([li]) == [li, t] by {
      assert [li][1..] == [];
    }
    assert Descendants([ol]) == [ol, li, t] by {
      assert [ol][1..] == [];
    }
  }

  /** An `a` without `href` and one with an empty `href` contribute nothing;
      the value kept is raw, not resolved. */
  lemma LinksSkipAbsentAndEmpty()
    ensures ExtractLinks([Element("a", map["href" := "/x"], []), Element("a", map[], []),
                          Element("a", map["href" := ""], [])]) == ["/x"]
  {
    var doc := [Element("a", map["href" := "/x"], []), Element("a", map[], []),
                Element("a", map["href" := ""], [])];
    assert Descendants([]) == [] && ExtractLinks([]) == [];
    AttrValuesInDocumentOrder(doc, "a", "href");
    AttrValuesInDocumentOrder(doc[1..], "a", "href");
    AttrValuesInDocumentOrder(doc[2..], "a", "href");
    assert doc[2..][1..] == [];
  }
}
