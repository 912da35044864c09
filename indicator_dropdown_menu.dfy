/**
  The indicator dropdown's search filter.  `findMatches(item, re)` walks an
  indicator tree in pre-order and returns a copy, flagged `filtered`, of every
  node whose title the pattern matches; `filterMenu(items, pattern)` leaves
  the menu alone for patterns shorter than three characters and otherwise
  concatenates the matches found under each top-level item.

  The regular expression is an abstract test `test(pattern, title)`.
*/
module IndicatorDropdownMenu {
  import opened Js

  /**
    A menu node: its title, its remaining properties, its children (an empty
    sequence when it has none) and the `filtered` flag a match sets.
  */
  datatype Item = Item(title: Value, props: map<string, Value>, children: seq<Item>, filtered: bool)

  type Matcher = (string, Value) -> bool

  /** The copy `findMatches` emits for a matching node: `_.assign({}, item, {filtered: true})`. */
  function Flagged(item: Item): (r: Item)
    ensures r.filtered
    ensures r.title == item.title && r.props == item.props && r.children == item.children
  {
    item.(filtered := true)
  }

  /** `findMatches(item, re)`: the node's own match first, then its children's matches in order. */
  function FindMatches(item: Item, pattern: string, test: Matcher): (r: seq<Item>)
    ensures forall k :: 0 <= k < |r| ==> r[k].filtered && test(pattern, r[k].title)
    decreases item, 1
  {
    (if test(pattern, item.title) then [Flagged(item)] else []) + FindMatchesIn(item.children, pattern, test)
  }

  /** The matches under each of `items`, concatenated in order. */
  function FindMatchesIn(items: seq<Item>, pattern: string, test: Matcher): (r: seq<Item>)
    ensures forall k :: 0 <= k < |r| ==> r[k].filtered && test(pattern, r[k].title)
    decreases items, 0
  {
    if items == [] then []
    else FindMatches(items[0], pattern, test) + FindMatchesIn(items[1..], pattern, test)
  }

  /** `filterMenu(items, pattern)`: below three characters the items come back untouched. */
  function FilterMenu(items: seq<Item>, pattern: string, test: Matcher): (r: seq<Item>)
    ensures |pattern| < 3 ==> r == items
    ensures |pattern| >= 3 ==> forall k :: 0 <= k < |r| ==> r[k].filtered && test(pattern, r[k].title)
  {
    if |pattern| < 3 then items
    else FindMatchesIn(items, pattern, test)
  }

  /** The nodes of a tree in pre-order: the node, then each child's subtree in turn. */
  function Preorder(item: Item): seq<Item>
    decreases item, 1
  {
    [item] + PreorderIn(item.children)
  }

  function PreorderIn(items: seq<Item>): seq<Item>
    decreases items, 0
  {
    if items == [] then [] else Preorder(items[0]) + PreorderIn(items[1..])
  }

  /** Reference definition: the flagged copies of the nodes of `nodes` that match, in order. */
  function MarkMatches(nodes: seq<Item>, pattern: string, test: Matcher): seq<Item> {
    if nodes == [] then []
    else (if test(pattern, nodes[0].title) then [Flagged(nodes[0])] else []) + MarkMatches(nodes[1..], pattern, test)
  }

  lemma {:induction false} MarkMatchesAppend(a: seq<Item>, b: seq<Item>, pattern: string, test: Matcher)
    ensures MarkMatches(a + b, pattern, test) == MarkMatches(a, pattern, test) + MarkMatches(b, pattern, test)
  {
    if a != [] {
      assert (a + b)[1..] == a[1..] + b;
      MarkMatchesAppend(a[1..], b, pattern, test);
    } else {
      assert a + b == b;
    }
  }

  /**
    `findMatches` is pre-order: it emits exactly the flagged copies of the
    matching nodes of the subtree, each node before its descendants and
    children in order; a node that does not match is still searched below.
  */
  lemma {:induction false} FindMatchesIsPreorder(item: Item, pattern: string, test: Matcher)
    ensures FindMatches(item, pattern, test) == MarkMatches(Preorder(item), pattern, test)
    decreases item, 1
  {
    FindMatchesInIsPreorder(item.children, pattern, test);
    MarkMatchesAppend([item], PreorderIn(item.children), pattern, test);
  }

  lemma {:induction false} FindMatchesInIsPreorder(items: seq<Item>, pattern: string, test: Matcher)
    ensures FindMatchesIn(items, pattern, test) == MarkMatches(PreorderIn(items), pattern, test)
    decreases items, 0
  {
    if items != [] {
      FindMatchesIsPreorder(items[0], pattern, test);
      FindMatchesInIsPreorder(items[1..], pattern, test);
      MarkMatchesAppend(Preorder(items[0]), PreorderIn(items[1..]), pattern, test);
    }
  }

  /** The number of nodes of `nodes` whose title matches. */
  function CountMatching(nodes: seq<Item>, pattern: string, test: Matcher): nat {
    if nodes == [] then 0
    else (if test(pattern, nodes[0].title) then 1 else 0) + CountMatching(nodes[1..], pattern, test)
  }

  lemma {:induction false} MarkMatchesCount(nodes: seq<Item>, pattern: string, test: Matcher)
    ensures |MarkMatches(nodes, pattern, test)| == CountMatching(nodes, pattern, test)
  {
    if nodes != [] {
      MarkMatchesCount(nodes[1..], pattern, test);
    }
  }

  /** One entry per matching node of the subtree, no more and no fewer. */
  lemma FindMatchesCount(item: Item, pattern: string, test: Matcher)
    ensures |FindMatches(item, pattern, test)| == CountMatching(Preorder(item), pattern, test)
  {
    FindMatchesIsPreorder(item, pattern, test);
    MarkMatchesCount(Preorder(item), pattern, test);
  }

  /** With a pattern of three characters or more, the menu is the matches of the whole forest in pre-order. */
  lemma FilterMenuIsPreorder(items: seq<Item>, pattern: string, test: Matcher)
    requires |pattern| >= 3
    ensures FilterMenu(items, pattern, test) == MarkMatches(PreorderIn(items), pattern, test)
    ensures |FilterMenu(items, pattern, test)| == CountMatching(PreorderIn(items), pattern, test)
  {
    FindMatchesInIsPreorder(items, pattern, test);
    MarkMatchesCount(PreorderIn(items), pattern, test);
  }
}
