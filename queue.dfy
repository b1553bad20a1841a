/**
 * The card stacking layout of `utils/queue.js`: collect every floating card, sort
 * them by their creation order, and give them `style.top` values 20, 20 + h0 + 20,
 * ... so that each card sits `GAP` pixels below the one created before it.
 *
 * A card element is an object: `layoutCards` sorts a fresh array of references
 * in place and then writes the `top` of each referenced card.
 */
module Queue {

  /** The gap between two stacked cards, in pixels. */
  const GAP: int := 20

  /** The `top` of the first card, in pixels. */
  const FIRST_TOP: int := 20

  /**
   * A `[data-itf-card]` element as the layout sees it: its `data-order` and its
   * rendered `offsetHeight`, both read-only to the layout (the height is computed
   * by the browser), and its `style.top`, the one thing the layout writes.
   */
  class CardElement {
    const order: int
    const height: nat
    var top: int

    constructor (order: int, height: nat)
      ensures this.order == order && this.height == height && top == 0
    {
      this.order := order;
      this.height := height;
      top := 0;
    }
  }

  // ---------------------------------------------------------------------------
  // Specification

  /** Non-decreasing creation order along `s`. */
  ghost predicate SortedByOrder(s: seq<CardElement>)
  {
    forall i, j :: 0 <= i < j < |s| ==> s[i].order <= s[j].order
  }

  /** No two cards share a creation order (the content script hands them out once each). */
  ghost predicate DistinctOrders(s: seq<CardElement>)
  {
    forall i, j :: 0 <= i < j < |s| ==> s[i].order != s[j].order
  }

  /** The `offsetHeight` of each card, in stack order. */
  function HeightsOf(s: seq<CardElement>): (h: seq<nat>)
    ensures |h| == |s|
  {
    if s == [] then [] else [s[0].height] + HeightsOf(s[1..])
  }

  /**
   * Position by position, `HeightsOf` reads each card's height. (Kept apart from
   * `HeightsOf`'s contract so that loops mentioning `TopAt` do not unfold it.)
   */
  lemma {:induction false} HeightsOfAt(s: seq<CardElement>, k: nat)
    requires k < |s|
    ensures HeightsOf(s)[k] == s[k].height
  {
    if k > 0 {
      HeightsOfAt(s[1..], k - 1);
    }
  }

  /**
   * The top of the card at position `k` of the sorted stack: `FIRST_TOP` for the
   * first, and the previous card's top plus its height plus `GAP` for the others.
   */
  function TopAt(heights: seq<nat>, k: nat): int
    requires k <= |heights|
  {
    if k == 0 then FIRST_TOP else TopAt(heights, k - 1) + heights[k - 1] + GAP
  }

  function Sum(s: seq<nat>): nat
  {
    if s == [] then 0 else s[0] + Sum(s[1..])
  }

  // ---------------------------------------------------------------------------
  // The imperative layout, as the source runs it

  /** Exchanges two entries of the array of references; the cards themselves are untouched. */
  method Swap(cards: array<CardElement>, i: nat, j: nat)
    requires i < cards.Length && j < cards.Length
    modifies cards
    ensures cards[..] == old(cards[..])[i := old(cards[j])][j := old(cards[i])]
    ensures multiset(cards[..]) == multiset(old(cards[..]))
  {
    cards[i], cards[j] := cards[j], cards[i];
  }

  /** `cards.sort((a, b) => a.order - b.order)`, as an in-place insertion sort. */
  method SortByOrder(cards: array<CardElement>)
    modifies cards
    ensures SortedByOrder(cards[..])
    ensures multiset(cards[..]) == multiset(old(cards[..]))
  {
    var i := 0;
    while i < cards.Length
      invariant 0 <= i <= cards.Length
      invariant forall p, q :: 0 <= p < q < i ==> cards[p].order <= cards[q].order
      invariant multiset(cards[..]) == multiset(old(cards[..]))
    {
      var j := i;
      while j > 0 && cards[j - 1].order > cards[j].order
        invariant 0 <= j <= i
        invariant forall p, q :: 0 <= p < q <= i && q != j ==> cards[p].order <= cards[q].order
        invariant 0 < j < i ==> cards[j - 1].order <= cards[j + 1].order
        invariant multiset(cards[..]) == multiset(old(cards[..]))
      {
        Swap(cards, j - 1, j);
        j := j - 1;
      }
      i := i + 1;
    }
  }

  /**
   * The `forEach` that writes `top` and accumulates `top += offsetHeight + GAP`,
   * over the (already sorted) references.
   */
  method AssignTops(cards: seq<CardElement>)
    requires forall i, j :: 0 <= i < j < |cards| ==> cards[i] != cards[j]
    modifies set c | c in cards
    ensures forall k :: 0 <= k < |cards| ==> cards[k].top == TopAt(HeightsOf(cards), k)
  {
    ghost var heights := HeightsOf(cards);
    var top := FIRST_TOP;
    for i := 0 to |cards|
      invariant top == TopAt(heights, i)
      invariant forall k :: 0 <= k < i ==> cards[k].top == TopAt(heights, k)
    {
      HeightsOfAt(cards, i);
      cards[i].top := top;
      top := top + cards[i].height + GAP;
    }
  }

  /** `layoutCards()`: sort the cards by creation order, then stack them. */
  method LayoutCards(cards: array<CardElement>)
    requires forall i, j :: 0 <= i < j < cards.Length ==> cards[i] != cards[j]
    modifies cards, set c | c in cards[..]
    ensures multiset(cards[..]) == multiset(old(cards[..]))
    ensures SortedByOrder(cards[..])
    ensures forall k :: 0 <= k < cards.Length ==> cards[k].top == TopAt(HeightsOf(cards[..]), k)
  {
    ghost var before := cards[..];
    SortByOrder(cards);
    ghost var sorted := cards[..];
    DistinctAfterPermutation(before, sorted);
    forall c | c in sorted ensures c in before {
      assert c in multiset(sorted);
    }
    AssignTops(cards[..]);
  }

  // ---------------------------------------------------------------------------
  // Properties

  /** A permutation of distinct references is still distinct. */
  lemma DistinctAfterPermutation(s: seq<CardElement>, t: seq<CardElement>)
    requires forall i, j :: 0 <= i < j < |s| ==> s[i] != s[j]
    requires multiset(s) == multiset(t)
    ensures forall i, j :: 0 <= i < j < |t| ==> t[i] != t[j]
  {
    forall i, j | 0 <= i < j < |t| ensures t[i] != t[j] {
      SeqDistinctCount(s, t[i]);
      if t[i] == t[j] {
        RepeatedTwice(t, i, j);
      }
    }
  }

  /** A reference at two positions occurs at least twice. */
  lemma RepeatedTwice(t: seq<CardElement>, i: nat, j: nat)
    requires i < j < |t| && t[i] == t[j]
    ensures multiset(t)[t[i]] >= 2
  {
    assert t == t[..j] + [t[j]] + t[j + 1..];
    assert t[..j][i] == t[i];
    assert multiset(t[..j])[t[i]] >= 1;
  }

  /** In a sequence without repetition every element occurs at most once. */
  lemma {:induction false} SeqDistinctCount(s: seq<CardElement>, x: CardElement)
    requires forall i, j :: 0 <= i < j < |s| ==> s[i] != s[j]
    ensures multiset(s)[x] <= 1
  {
    if s != [] {
      assert s == [s[0]] + s[1..];
      SeqDistinctCount(s[1..], x);
      if x == s[0] {
        assert x !in s[1..];
      }
    }
  }

  /** The first card sits at `FIRST_TOP`, the next ones `GAP` below their predecessor. */
  lemma {:induction false} TopAtLowerBound(heights: seq<nat>, k: nat)
    requires k <= |heights|
    ensures TopAt(heights, k) >= FIRST_TOP + k * GAP
  {
    if k > 0 {
      TopAtLowerBound(heights, k - 1);
    }
  }

  /** With non-negative heights the tops strictly increase along the creation order. */
  lemma {:induction false} TopAtIncreasing(heights: seq<nat>, i: nat, j: nat)
    requires i < j <= |heights|
    ensures TopAt(heights, j) >= TopAt(heights, i) + (j - i) * GAP
    decreases j - i
  {
    if j > i + 1 {
      TopAtIncreasing(heights, i, j - 1);
    }
  }

  /**
   * What a laid-out stack looks like: the first card at `FIRST_TOP`, each later card
   * at the previous card's top plus its height plus `GAP`, so tops strictly increase.
   */
  lemma LaidOutStack(cards: seq<CardElement>)
    requires forall k :: 0 <= k < |cards| ==> cards[k].top == TopAt(HeightsOf(cards), k)
    ensures |cards| > 0 ==> cards[0].top == FIRST_TOP
    ensures forall k :: 0 < k < |cards| ==> cards[k].top == cards[k - 1].top + cards[k - 1].height + GAP
    ensures forall i, j :: 0 <= i < j < |cards| ==> cards[i].top < cards[j].top
  {
    forall k | 0 < k < |cards|
      ensures cards[k].top == cards[k - 1].top + cards[k - 1].height + GAP
    {
      HeightsOfAt(cards, k - 1);
    }
    forall i, j | 0 <= i < j < |cards|
      ensures cards[i].top < cards[j].top
    {
      TopAtIncreasing(HeightsOf(cards), i, j);
    }
  }

  /** Adding a height at the end of a list adds it to the sum. */
  lemma {:induction false} SumAppend(s: seq<nat>, x: nat)
    ensures Sum(s + [x]) == Sum(s) + x
  {
    if s != [] {
      assert (s + [x])[1..] == s[1..] + [x];
      SumAppend(s[1..], x);
    }
  }

  /**
   * Closed form of the accumulated top: the card at position `k` sits below the
   * first `k` cards' heights and `k` gaps.
   */
  lemma {:induction false} TopAtClosedForm(heights: seq<nat>, k: nat)
    requires k <= |heights|
    ensures TopAt(heights, k) == FIRST_TOP + Sum(heights[..k]) + k * GAP
  {
    if k > 0 {
      TopAtClosedForm(heights, k - 1);
      assert heights[..k] == heights[..k - 1] + [heights[k - 1]];
      SumAppend(heights[..k - 1], heights[k - 1]);
    }
  }

  /**
   * The sorted order is unique once creation orders are distinct: two sorted
   * arrangements of the same cards are the same arrangement. Hence the layout
   * depends only on the set of cards (not on their document order), and laying
   * out an already laid-out set changes nothing.
   */
  lemma {:induction false} SortedArrangementUnique(s: seq<CardElement>, t: seq<CardElement>)
    requires multiset(s) == multiset(t)
    requires SortedByOrder(s) && SortedByOrder(t) && DistinctOrders(s)
    ensures s == t
  {
    if s == [] {
      assert |t| == |multiset(t)| == 0;
    } else {
      assert |t| == |multiset(t)| == |s|;
      SortedHeadsAgree(s, t);
      SameTails(s, t);
      TailKeepsOrder(s);
      TailKeepsOrder(t);
      SortedArrangementUnique(s[1..], t[1..]);
      assert s == [s[0]] + s[1..] && t == [t[0]] + t[1..];
    }
  }

  /** Removing the same first card from two arrangements of the same cards leaves the same cards. */
  lemma SameTails(s: seq<CardElement>, t: seq<CardElement>)
    requires multiset(s) == multiset(t) && |s| > 0 && |t| > 0 && s[0] == t[0]
    ensures multiset(s[1..]) == multiset(t[1..])
  {
    assert s == [s[0]] + s[1..] && t == [t[0]] + t[1..];
    assert multiset(s[1..]) == multiset(s) - multiset{s[0]};
    assert multiset(t[1..]) == multiset(t) - multiset{t[0]};
  }

  /** Two sorted arrangements of the same non-empty set of cards start with the same card. */
  lemma SortedHeadsAgree(s: seq<CardElement>, t: seq<CardElement>)
    requires multiset(s) == multiset(t) && |s| > 0 && |t| > 0
    requires SortedByOrder(s) && SortedByOrder(t) && DistinctOrders(s)
    ensures s[0] == t[0]
  {
    assert s[0] in multiset(t);
    var k :| 0 <= k < |t| && t[k] == s[0];
    assert t[0] in multiset(s);
    var m :| 0 <= m < |s| && s[m] == t[0];
    assert s[0].order <= s[m].order == t[0].order <= t[k].order == s[0].order;
    assert m == 0;
  }

  /** Dropping the first card keeps a sorted, distinct-order arrangement so. */
  lemma TailKeepsOrder(s: seq<CardElement>)
    requires |s| > 0
    ensures SortedByOrder(s) ==> SortedByOrder(s[1..])
    ensures DistinctOrders(s) ==> DistinctOrders(s[1..])
  {
    if SortedByOrder(s) {
      forall i, j | 0 <= i < j < |s| - 1 ensures s[1..][i].order <= s[1..][j].order {
        assert s[1..][i] == s[i + 1] && s[1..][j] == s[j + 1];
      }
    }
    if DistinctOrders(s) {
      forall i, j | 0 <= i < j < |s| - 1 ensures s[1..][i].order != s[1..][j].order {
        assert s[1..][i] == s[i + 1] && s[1..][j] == s[j + 1];
      }
    }
  }

  /** Creation orders that are distinct stay distinct under any rearrangement of the cards. */
  lemma OrdersDistinctAfterPermutation(s: seq<CardElement>, t: seq<CardElement>)
    requires DistinctOrders(s) && multiset(s) == multiset(t)
    ensures DistinctOrders(t)
  {
    forall i, j | 0 <= i < j < |t| ensures t[i].order != t[j].order {
      assert t[i] in multiset(s) && t[j] in multiset(s);
      var p :| 0 <= p < |s| && s[p] == t[i];
      var q :| 0 <= q < |s| && s[q] == t[j];
      if p == q {
        SeqDistinctCount(s, t[i]) by {
          forall a, b | 0 <= a < b < |s| ensures s[a] != s[b] {
            assert s[a].order != s[b].order;
          }
        }
        RepeatedTwice(t, i, j);
      } else if p < q {
        assert s[p].order != s[q].order;
      } else {
        assert s[q].order != s[p].order;
      }
    }
  }

  /**
   * The layout does not depend on the cards' document order: two arrangements of
   * the same cards (with distinct creation orders) sort to the same stack, so
   * every card gets the same top.
   */
  lemma LayoutIgnoresDocumentOrder(a: seq<CardElement>, b: seq<CardElement>,
                                   sortedA: seq<CardElement>, sortedB: seq<CardElement>)
    requires DistinctOrders(a) && multiset(a) == multiset(b)
    requires multiset(sortedA) == multiset(a) && SortedByOrder(sortedA)
    requires multiset(sortedB) == multiset(b) && SortedByOrder(sortedB)
    ensures sortedA == sortedB
    ensures forall k :: 0 <= k < |sortedA| ==> TopAt(HeightsOf(sortedA), k) == TopAt(HeightsOf(sortedB), k)
  {
    OrdersDistinctAfterPermutation(a, sortedA);
    SortedArrangementUnique(sortedA, sortedB);
  }

  /**
   * Laying out twice changes nothing: the second pass sorts an arrangement that is
   * already sorted, gets the same arrangement back, and so writes the same tops.
   */
  lemma LayoutIdempotent(first: seq<CardElement>, second: seq<CardElement>)
    requires SortedByOrder(first) && DistinctOrders(first)
    requires multiset(second) == multiset(first) && SortedByOrder(second)
    ensures second == first
    ensures forall k :: 0 <= k < |first| ==> TopAt(HeightsOf(second), k) == TopAt(HeightsOf(first), k)
  {
    SortedArrangementUnique(first, second);
  }
}
