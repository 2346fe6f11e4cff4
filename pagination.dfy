/**
 * Greedy pagination of a document's block elements into page-sized groups.
 *
 * The document is the ordered list of block children of the measuring
 * container. Each element is cloned, appended to the container, and the
 * container's rendered height is compared with the height of the placement
 * box; a strictly greater height closes the current page and the element
 * starts the next one. Rendering is abstracted by a deterministic oracle that
 * gives the height of a sequence of elements laid out at a given width (the
 * font size and line height of the run are fixed and implicit in the oracle).
 */
module Pagination {

  /** One block element of the converted document; its markup is opaque here. */
  datatype Node = Element(tag: string, html: string)

  /** Rendered height of a group of elements laid out at the given width. */
  type Oracle = (seq<Node>, int) -> nat

  /** Width and height of the placement box: the content area of every page. */
  datatype Budget = Budget(width: int, height: int)

  /** All pages' elements, in page order. */
  function Flatten(pages: seq<seq<Node>>): (all: seq<Node>)
    decreases |pages|
  {
    if pages == [] then [] else pages[0] + Flatten(pages[1..])
  }

  /** True when laying out `group` at the budget's width overflows its height. */
  predicate Overflows(m: Oracle, b: Budget, group: seq<Node>)
  {
    m(group, b.width) > b.height
  }

  /**
   * The pages still to be produced when `open` is the page being filled and
   * `rest` are the elements not yet visited: an element that makes the open
   * page overflow closes it (even when it is empty) and opens the next page;
   * otherwise it joins the open page. The open page is emitted at the end only
   * when it holds something.
   */
  function Fill(m: Oracle, b: Budget, open: seq<Node>, rest: seq<Node>): (pages: seq<seq<Node>>)
    decreases |rest|
  {
    if rest == [] then
      (if open == [] then [] else [open])
    else if Overflows(m, b, open + [rest[0]]) then
      [open] + Fill(m, b, [rest[0]], rest[1..])
    else
      Fill(m, b, open + [rest[0]], rest[1..])
  }

  /** The pages the pagination effect computes for `nodes`. */
  function Paginate(m: Oracle, b: Budget, nodes: seq<Node>): (pages: seq<seq<Node>>)
  {
    Fill(m, b, [], nodes)
  }

  /** Every prefix of `page` longer than `from` elements fits the budget. */
  ghost predicate PrefixesFit(m: Oracle, b: Budget, page: seq<Node>, from: nat)
  {
    forall k :: from < k <= |page| ==> !Overflows(m, b, page[..k])
  }

  /**
   * Declarative description of a greedy layout of `open + rest` whose first
   * page starts with the already committed elements `open`:
   * - the pages hold exactly `open + rest`, in order;
   * - every page after the first, and the last page, is non-empty;
   * - every element committed to a page fits together with the page so far
   *   (on the first page from position |open| on, on later pages from the
   *   second element on, since the first element of such a page is placed
   *   without a test);
   * - every page break is forced: the page before the break overflows once
   *   the next page's first element is added.
   */
  ghost predicate GreedyLayoutFrom(m: Oracle, b: Budget, open: seq<Node>, rest: seq<Node>, pages: seq<seq<Node>>)
  {
    && Flatten(pages) == open + rest
    && (pages != [] ==> |open| <= |pages[0]| && pages[0][..|open|] == open)
    && (pages != [] ==> pages[|pages| - 1] != [])
    && (forall i :: 0 < i < |pages| ==> pages[i] != [])
    && (forall i :: 0 <= i < |pages| ==> PrefixesFit(m, b, pages[i], if i == 0 then |open| else 1))
    && (forall i :: 0 < i < |pages| ==> Overflows(m, b, pages[i - 1] + [pages[i][0]]))
  }

  /** `pages` is a greedy layout of the whole document `nodes`. */
  ghost predicate IsGreedyLayout(m: Oracle, b: Budget, nodes: seq<Node>, pages: seq<seq<Node>>)
  {
    GreedyLayoutFrom(m, b, [], nodes, pages)
  }

  // ---------------------------------------------------------------------
  // Facts about Flatten

  lemma {:induction false} FlattenLength(pages: seq<seq<Node>>, i: nat)
    requires i < |pages|
    ensures |pages[i]| <= |Flatten(pages)|
    decreases |pages|
  {
    if i > 0 {
      FlattenLength(pages[1..], i - 1);
    }
  }

  lemma {:induction false} FlattenNonEmptyPages(pages: seq<seq<Node>>)
    requires forall i :: 0 <= i < |pages| ==> pages[i] != []
    ensures |pages| <= |Flatten(pages)|
    decreases |pages|
  {
    if pages != [] {
      FlattenNonEmptyPages(pages[1..]);
    }
  }

  lemma CancelPrefix(a: seq<Node>, x: seq<Node>, y: seq<Node>)
    requires a + x == a + y
    ensures x == y
  {
    assert x == (a + x)[|a|..];
    assert y == (a + y)[|a|..];
  }

  // ---------------------------------------------------------------------
  // The recursive specification and the declarative one agree

  /** Fill produces a greedy layout (existence). */
  lemma {:induction false} FillIsGreedy(m: Oracle, b: Budget, open: seq<Node>, rest: seq<Node>)
    ensures GreedyLayoutFrom(m, b, open, rest, Fill(m, b, open, rest))
    decreases |rest|
  {
    var pages := Fill(m, b, open, rest);
    if rest == [] {
      assert open + rest == open;
      if open != [] {
        assert pages == [open];
        assert pages[0][..|open|] == open;
        assert Flatten(pages) == open + Flatten([]);
      }
    } else {
      var n, tail := rest[0], rest[1..];
      assert rest == [n] + tail;
      if Overflows(m, b, open + [n]) {
        var later := Fill(m, b, [n], tail);
        FillIsGreedy(m, b, [n], tail);
        assert pages == [open] + later;
        assert later != [];
        assert pages[1..] == later;
        assert pages[0][..|open|] == open;
        assert later[0][0] == n by {
          assert later[0][..1] == [n];
        }
        forall i | 0 <= i < |pages|
          ensures PrefixesFit(m, b, pages[i], if i == 0 then |open| else 1)
        {
          if i > 0 {
            assert pages[i] == later[i - 1];
          }
        }
        forall i | 0 < i < |pages|
          ensures Overflows(m, b, pages[i - 1] + [pages[i][0]])
        {
          if i > 1 {
            assert pages[i - 1] == later[i - 2] && pages[i] == later[i - 1];
          }
        }
      } else {
        FillIsGreedy(m, b, open + [n], tail);
        assert (open + [n]) + tail == open + rest;
        assert pages == Fill(m, b, open + [n], tail);
        assert pages[0][..|open|] == (pages[0][..|open| + 1])[..|open|];
        assert pages[0][..|open| + 1] == open + [n];
      }
    }
  }

  /** Any greedy layout is the one Fill produces (uniqueness). */
  lemma {:induction false} GreedyLayoutIsFill(m: Oracle, b: Budget, open: seq<Node>, rest: seq<Node>, pages: seq<seq<Node>>)
    requires GreedyLayoutFrom(m, b, open, rest, pages)
    ensures pages == Fill(m, b, open, rest)
    decreases |rest|
  {
    if pages != [] {
      assert Flatten(pages) == pages[0] + Flatten(pages[1..]);
    }
    if rest == [] {
      assert open + rest == open;
      if pages != [] {
        assert pages[0] == open by { assert pages[0] == pages[0][..|open|]; }
        assert Flatten(pages[1..]) == [];
        assert |pages| == 1;
      }
    } else {
      var n, tail := rest[0], rest[1..];
      assert rest == [n] + tail;
      assert pages != [];
      if |pages[0]| > |open| {
        // The next element joined the first page, so it fitted there.
        assert pages[0][|open|] == (open + rest)[|open|] == n;
        assert pages[0][..|open| + 1] == open + [n];
        assert !Overflows(m, b, open + [n]);
        assert (open + [n]) + tail == open + rest;
        GreedyLayoutIsFill(m, b, open + [n], tail, pages);
      } else {
        // The first page is exactly `open`; the next element opens page 1,
        // and the break before it is forced.
        assert pages[0] == open by { assert pages[0] == pages[0][..|open|]; }
        var later := pages[1..];
        CancelPrefix(open, Flatten(later), rest);
        assert |pages| > 1;
        assert later[0][0] == n by {
          assert Flatten(later) == later[0] + Flatten(later[1..]);
        }
        assert Overflows(m, b, open + [n]);
        assert later[0][..1] == [n];
        forall i | 0 <= i < |later|
          ensures PrefixesFit(m, b, later[i], 1)
        {
          assert later[i] == pages[i + 1];
        }
        forall i | 0 < i < |later|
          ensures Overflows(m, b, later[i - 1] + [later[i][0]])
        {
          assert later[i - 1] == pages[i] && later[i] == pages[i + 1];
        }
        assert later[|later| - 1] == pages[|pages| - 1];
        GreedyLayoutIsFill(m, b, [n], tail, later);
        assert pages == [open] + later;
      }
    }
  }

  // ---------------------------------------------------------------------
  // Properties of the pages of a document

  /** Paginate's result is a greedy layout, and the only one (determinism). */
  lemma PaginateIsTheGreedyLayout(m: Oracle, b: Budget, nodes: seq<Node>, pages: seq<seq<Node>>)
    ensures IsGreedyLayout(m, b, nodes, Paginate(m, b, nodes))
    ensures IsGreedyLayout(m, b, nodes, pages) <==> pages == Paginate(m, b, nodes)
  {
    FillIsGreedy(m, b, [], nodes);
    if IsGreedyLayout(m, b, nodes, pages) {
      GreedyLayoutIsFill(m, b, [], nodes, pages);
    }
  }

  /** Every element lands on exactly one page, in document order. */
  lemma PagesCoverDocument(m: Oracle, b: Budget, nodes: seq<Node>)
    ensures Flatten(Paginate(m, b, nodes)) == nodes
  {
    FillIsGreedy(m, b, [], nodes);
  }

  /**
   * Budget respect: a page that holds two or more elements, and the first page
   * when it holds any, fits the box height (equality fits).
   */
  lemma PagesFitBudget(m: Oracle, b: Budget, nodes: seq<Node>, i: nat)
    requires i < |Paginate(m, b, nodes)|
    requires var page := Paginate(m, b, nodes)[i]; |page| >= 2 || (i == 0 && page != [])
    ensures m(Paginate(m, b, nodes)[i], b.width) <= b.height
  {
    var pages := Paginate(m, b, nodes);
    FillIsGreedy(m, b, [], nodes);
    assert PrefixesFit(m, b, pages[i], if i == 0 then 0 else 1);
    assert pages[i][..|pages[i]|] == pages[i];
  }

  /**
   * The element that overflows a page is not dropped or duplicated: it is the
   * first element of the next page, and the page it overflowed does not
   * include it.
   */
  lemma OverflowingNodeOpensNextPage(m: Oracle, b: Budget, nodes: seq<Node>, i: nat)
    requires 0 < i < |Paginate(m, b, nodes)|
    ensures Paginate(m, b, nodes)[i] != []
    ensures Overflows(m, b, Paginate(m, b, nodes)[i - 1] + [Paginate(m, b, nodes)[i][0]])
  {
    FillIsGreedy(m, b, [], nodes);
  }

  /**
   * Empty pages: an empty document has no pages; only the first page can be
   * empty, and it is empty exactly when the first element alone overflows.
   */
  lemma EmptyPages(m: Oracle, b: Budget, nodes: seq<Node>)
    ensures Paginate(m, b, nodes) == [] <==> nodes == []
    ensures forall i :: 0 < i < |Paginate(m, b, nodes)| ==> Paginate(m, b, nodes)[i] != []
    ensures (Paginate(m, b, nodes) != [] && Paginate(m, b, nodes)[0] == [])
            <==> (nodes != [] && Overflows(m, b, [nodes[0]]))
  {
    var pages := Paginate(m, b, nodes);
    FillIsGreedy(m, b, [], nodes);
    if pages != [] {
      assert Flatten(pages) == pages[0] + Flatten(pages[1..]);
      FlattenLength(pages, |pages| - 1);
      if pages[0] == [] {
        assert |pages| > 1;
        var later := pages[1..];
        assert Flatten(later) == later[0] + Flatten(later[1..]);
        assert [] + nodes == nodes;
        assert nodes == later[0] + Flatten(later[1..]);
        assert pages[1][0] == nodes[0];
        assert [] + [pages[1][0]] == [nodes[0]];
      } else {
        assert nodes == pages[0] + Flatten(pages[1..]);
        assert pages[0][0] == nodes[0];
        assert PrefixesFit(m, b, pages[0], 0);
        assert pages[0][..1] == [nodes[0]];
      }
    }
  }

  /** Page count: at least one page for a non-empty document, at most one
   *  more than the number of elements, and at most the number of elements
   *  when the first page is not empty. */
  lemma PageCountBounds(m: Oracle, b: Budget, nodes: seq<Node>)
    ensures nodes != [] ==> 1 <= |Paginate(m, b, nodes)|
    ensures |Paginate(m, b, nodes)| <= |nodes| + 1
    ensures Paginate(m, b, nodes) != [] && Paginate(m, b, nodes)[0] != [] ==> |Paginate(m, b, nodes)| <= |nodes|
  {
    var pages := Paginate(m, b, nodes);
    EmptyPages(m, b, nodes);
    PagesCoverDocument(m, b, nodes);
    if pages != [] {
      assert Flatten(pages) == pages[0] + Flatten(pages[1..]);
      FlattenNonEmptyPages(pages[1..]);
    }
  }

  /** Every element is 900 pixels high and the box is 850 high: the first
   *  element alone overflows, so an empty page precedes it, and every later
   *  element gets a page of its own. */
  lemma LeadingEmptyPageExample(a: Node, c: Node)
    ensures Paginate((group: seq<Node>, width: int) => 900 * |group|, Budget(630, 850), [a, c])
         == [[], [a], [c]]
  {
    var m := (group: seq<Node>, width: int) => 900 * |group|;
    var b := Budget(630, 850);
    assert [a, c][1..] == [c];
    assert Fill(m, b, [c], []) == [[c]];
    assert Fill(m, b, [a], [c]) == [[a], [c]];
  }

  // ---------------------------------------------------------------------
  // The pagination loop

  /**
   * The measuring loop of the pagination effect: `page` mirrors the measuring
   * container, which holds exactly the open page after every step.
   */
  method PaginateNodes(m: Oracle, b: Budget, nodes: seq<Node>) returns (pages: seq<seq<Node>>)
    ensures pages == Paginate(m, b, nodes)
    ensures IsGreedyLayout(m, b, nodes, pages)
    ensures Flatten(pages) == nodes
  {
    var result: seq<seq<Node>> := [];
    var page: seq<Node> := [];
    var i := 0;
    while i < |nodes|
      invariant 0 <= i <= |nodes|
      invariant result + Fill(m, b, page, nodes[i..]) == Paginate(m, b, nodes)
    {
      var el := nodes[i];
      assert nodes[i..][0] == el && nodes[i..][1..] == nodes[i + 1..];
      ghost var before := Fill(m, b, page, nodes[i..]);
      if m(page + [el], b.width) > b.height {
        assert before == [page] + Fill(m, b, [el], nodes[i + 1..]);
        result := result + [page];
        page := [];
      } else {
        assert before == Fill(m, b, page + [el], nodes[i + 1..]);
      }
      page := page + [el];
      i := i + 1;
      assert [] + [el] == [el];
    }
    assert nodes[i..] == [];
    if |page| > 0 {
      result := result + [page];
    }
    pages := result;
    PaginateIsTheGreedyLayout(m, b, nodes, pages);
    PagesCoverDocument(m, b, nodes);
  }
}
