/** What one node's pages become: the per-result decisions of the Browse and
    BrowseNext handlers, and the reference list that finally reaches the caller. */
module BrowsePaging {
  import opened OpcUaTypes

  datatype BrowseResult =
    BrowseResult(statusCode: StatusCode, references: seq<Reference>, continuationPoint: Option<ContinuationPoint>)

  /** A result is either delivered to the caller at once or held until the next page. */
  datatype Verdict =
    | Deliver(statusCode: StatusCode, references: seq<Reference>)
    | Hold(page: seq<Reference>, point: ContinuationPoint)

  /** Decision on the first page of a node. */
  function FirstPage(r: BrowseResult): Verdict {
    if r.statusCode != Success then Deliver(r.statusCode, [])
    else if r.references == [] then Deliver(Success, [])
    else if r.continuationPoint.Some? then Hold(r.references, r.continuationPoint.value)
    else Deliver(Success, r.references)
  }

  /** Decision on a later page, given the page held so far.
      A further continuation point replaces the held page by the newest one. */
  function NextPage(held: seq<Reference>, r: BrowseResult): Verdict {
    if r.statusCode != Success then Deliver(r.statusCode, held)
    else if r.references == [] then Deliver(Success, held)
    else if r.continuationPoint.Some? then Hold(r.references, r.continuationPoint.value)
    else Deliver(Success, held + r.references)
  }

  /** The list delivered for a node that holds `held` and still has the pages `rest`. */
  function DeliverRest(held: seq<Reference>, rest: seq<seq<Reference>>): seq<Reference>
    requires rest != []
    decreases |rest|
  {
    if rest[0] == [] then held
    else if |rest| == 1 then held + rest[0]
    else DeliverRest(rest[0], rest[1..])
  }

  /** The list delivered for a node whose server side consists of `pages`. */
  function Delivered(pages: seq<seq<Reference>>): seq<Reference>
    requires pages != []
  {
    if pages[0] == [] then []
    else if |pages| == 1 then pages[0]
    else DeliverRest(pages[0], pages[1..])
  }

  ghost predicate NoEmptyPage(pages: seq<seq<Reference>>) {
    forall i :: 0 <= i < |pages| ==> pages[i] != []
  }

  lemma {:induction false} DeliverRestIsLastTwo(held: seq<Reference>, rest: seq<seq<Reference>>)
    requires rest != [] && NoEmptyPage(rest)
    ensures DeliverRest(held, rest) == ([held] + rest)[|rest| - 1] + rest[|rest| - 1]
    decreases |rest|
  {
    if |rest| > 1 {
      DeliverRestIsLastTwo(rest[0], rest[1..]);
      assert [rest[0]] + rest[1..] == rest;
    }
  }

  /** With non-empty pages the caller receives the only page, or the last two. */
  lemma DeliveredIsLastTwo(pages: seq<seq<Reference>>)
    requires pages != [] && NoEmptyPage(pages)
    ensures |pages| == 1 ==> Delivered(pages) == pages[0]
    ensures |pages| >= 2 ==> Delivered(pages) == pages[|pages| - 2] + pages[|pages| - 1]
  {
    if |pages| >= 2 {
      DeliverRestIsLastTwo(pages[0], pages[1..]);
      assert [pages[0]] + pages[1..] == pages;
    }
  }

  /** An empty page ends the paging: the pages from it on are never delivered. */
  lemma {:induction false} DeliverRestStopsAtEmpty(held: seq<Reference>, rest: seq<seq<Reference>>, k: nat)
    requires k < |rest| && NoEmptyPage(rest[..k]) && rest[k] == []
    ensures DeliverRest(held, rest) == ([held] + rest)[k]
    decreases k
  {
    if k > 0 {
      assert rest[0] == rest[..k][0];
      assert rest[1..][..k - 1] == rest[..k][1..];
      DeliverRestStopsAtEmpty(rest[0], rest[1..], k - 1);
      assert [rest[0]] + rest[1..] == rest;
    }
  }

  lemma DeliveredStopsAtEmpty(pages: seq<seq<Reference>>, k: nat)
    requires k < |pages| && NoEmptyPage(pages[..k]) && pages[k] == []
    ensures Delivered(pages) == if k == 0 then [] else pages[k - 1]
  {
    if k > 0 {
      assert pages[0] == pages[..k][0];
      assert pages[1..][..k - 1] == pages[..k][1..];
      DeliverRestStopsAtEmpty(pages[0], pages[1..], k - 1);
      assert [pages[0]] + pages[1..] == pages;
    }
  }

  lemma FlattenNonEmpty(pages: seq<seq<Reference>>)
    requires pages != [] && NoEmptyPage(pages)
    ensures Flatten(pages) != []
  {
    assert pages[0] != [];
  }

  lemma FlattenTwoMore(front: seq<seq<Reference>>, a: seq<Reference>, b: seq<Reference>)
    ensures Flatten(front + [a] + [b]) == Flatten(front) + (a + b)
  {
    FlattenSnoc(front, a);
    FlattenSnoc(front + [a], b);
  }

  lemma OnlyTheLastTwo(front: seq<seq<Reference>>, a: seq<Reference>, b: seq<Reference>)
    requires NoEmptyPage(front)
    ensures a + b == Flatten(front + [a] + [b]) <==> front == []
  {
    FlattenTwoMore(front, a, b);
    if front != [] {
      FlattenNonEmpty(front);
    }
    assert |Flatten(front) + (a + b)| == |Flatten(front)| + |a + b|;
  }

  lemma CompleteIffTwoPages(pages: seq<seq<Reference>>, k: nat)
    requires |pages| == k + 2 && NoEmptyPage(pages)
    ensures pages[k] + pages[k + 1] == Flatten(pages) <==> k == 0
  {
    var front := pages[..k];
    assert NoEmptyPage(front);
    OnlyTheLastTwo(front, pages[k], pages[k + 1]);
    assert pages == front + [pages[k]] + [pages[k + 1]];
  }

  /** The intended result is the concatenation of all pages. For a server that sends no
      empty page the client delivers it exactly when there are at most two pages. */
  lemma DeliveredIsCompleteIff(pages: seq<seq<Reference>>)
    requires pages != [] && NoEmptyPage(pages)
    ensures Delivered(pages) == Flatten(pages) <==> |pages| <= 2
  {
    DeliveredIsLastTwo(pages);
    if |pages| == 1 {
      assert Flatten(pages) == pages[0] + Flatten([]);
    } else {
      assert Delivered(pages) == pages[|pages| - 2] + pages[|pages| - 1];
      CompleteIffTwoPages(pages, |pages| - 2);
    }
  }

  lemma OnlyThePageBefore(front: seq<seq<Reference>>, page: seq<Reference>, rest: seq<seq<Reference>>)
    requires NoEmptyPage(front)
    ensures page == Flatten(front + [page] + [[]] + rest) <==> front == [] && Flatten(rest) == []
  {
    var all := front + [page] + [[]] + rest;
    FlattenSplit(all, |front| + 2);
    assert all[..|front| + 2] == front + [page] + [[]];
    assert all[|front| + 2..] == rest;
    FlattenTwoMore(front, page, []);
    if front != [] {
      FlattenNonEmpty(front);
    }
    assert |Flatten(all)| == |Flatten(front)| + |page| + |Flatten(rest)|;
  }

  lemma FewerPages(pages: seq<seq<Reference>>, k: nat)
    requires 1 <= k <= |pages| && NoEmptyPage(pages[..k])
    ensures NoEmptyPage(pages[..k - 1])
  {
    assert pages[..k - 1] == pages[..k][..k - 1];
  }

  lemma CompleteIffOnePage(pages: seq<seq<Reference>>, k: nat)
    requires 0 < k < |pages| && NoEmptyPage(pages[..k]) && pages[k] == []
    ensures pages[k - 1] == Flatten(pages) <==> k == 1 && Flatten(pages[k + 1..]) == []
  {
    FewerPages(pages, k);
    OnlyThePageBefore(pages[..k - 1], pages[k - 1], pages[k + 1..]);
    assert pages == pages[..k - 1] + [pages[k - 1]] + [[]] + pages[k + 1..];
  }

  lemma EmptyFirstPage(pages: seq<seq<Reference>>)
    requires pages != [] && pages[0] == []
    ensures Flatten(pages) == Flatten(pages[1..])
  {
    assert [] + Flatten(pages[1..]) == Flatten(pages[1..]);
  }

  /** When the first empty page is number `k` (counting from 0), delivery is complete exactly
      when at most one page precedes it and no later page carries a reference. */
  lemma DeliveredIsCompleteWithEmptyPageIff(pages: seq<seq<Reference>>, k: nat)
    requires k < |pages| && NoEmptyPage(pages[..k]) && pages[k] == []
    ensures Delivered(pages) == Flatten(pages) <==> k <= 1 && Flatten(pages[k + 1..]) == []
  {
    DeliveredStopsAtEmpty(pages, k);
    if k == 0 {
      EmptyFirstPage(pages);
    } else {
      CompleteIffOnePage(pages, k);
    }
  }

  /** Three one-reference pages: the first page is lost. */
  lemma ThreePagesLoseTheFirst(a: Reference, b: Reference, c: Reference)
    ensures Delivered([[a], [b], [c]]) == [b, c]
    ensures Flatten([[a], [b], [c]]) == [a, b, c]
  {
    var pages := [[a], [b], [c]];
    DeliveredIsLastTwo(pages);
    calc {
      Flatten(pages);
      { assert pages[1..] == [[b], [c]]; }
      [a] + Flatten([[b], [c]]);
      { assert [[b], [c]][1..] == [[c]]; }
      [a] + ([b] + Flatten([[c]]));
      { assert [[c]][1..] == []; }
      [a] + ([b] + ([c] + []));
      [a, b, c];
    }
  }
}
